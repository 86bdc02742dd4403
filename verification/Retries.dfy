/**
 * A device whose write got no answer, whatever the rest of the world does before it tries
 * again. The write may have landed, may land later, or may never land.
 */
module Retries {
  import opened AccountLog
  import opened Codec
  import opened Staging
  import opened Publishing
  import opened AccountDevice
  import opened DeviceTheorems
  import opened Protocol

  /** A step that is not the device's own, or only a read of its own that reaches no store. */
  predicate Quiet(step: Step, id: nat) {
    match step
    case Elsewhere(_, _) => true
    case RefreshAt(other, reached) => other != id || !reached
    case BeginAt(other, reached) => other != id || !reached
    case _ => step.id != id
  }

  /** The device as its write left it, but for why its last read failed. */
  predicate Waits(before: Node, node: Node) {
    && node.flight.Grounded? && node.ledger == before.ledger
    && node.device == before.device.(problem := node.device.problem)
  }

  /** What is in the store once the write has landed. */
  function Landed(node: Node): Log
    requires node.flight.InFlight?
  {
    node.flight.base + node.flight.plan
  }

  lemma UnansweredRead(node: Node)
    requires node.flight.Grounded?
    ensures Waits(node, RefreshNode(node, NoAnswer)) && Waits(node, BeginNode(node, NoAnswer))
  {
    var b := multiset(node.device.staged);
    assert node.ledger.dropped + (b - b) == node.ledger.dropped;
  }

  lemma QuietStep(w: World, step: Step, before: Node, id: nat)
    requires id in w.nodes && Waits(before, w.nodes[id]) && Quiet(step, id)
    ensures id in Apply(w, step).nodes && Waits(before, Apply(w, step).nodes[id])
  {
    UnansweredRead(w.nodes[id]);
  }

  lemma {:induction false} QuietRun(w: World, steps: seq<Step>, before: Node, id: nat)
    requires id in w.nodes && Waits(before, w.nodes[id])
    requires forall i :: 0 <= i < |steps| ==> Quiet(steps[i], id)
    ensures id in Run(w, steps).nodes && Waits(before, Run(w, steps).nodes[id])
  {
    if steps != [] {
      var n := |steps| - 1;
      QuietRun(w, steps[..n], before, id);
      QuietStep(Run(w, steps[..n]), steps[n], before, id);
    }
  }

  /** The world after a write no answer of which is heard and then `more`, in which the device waits. */
  lemma AfterUnheard(w: World, steps: seq<Step>, id: nat, arrives: bool, heard: bool, more: seq<Step>)
    returns (late: World)
    requires Reached(w, steps) && id in w.nodes && w.nodes[id].flight.InFlight? && !(arrives && heard)
    requires forall i :: 0 <= i < |more| ==> Quiet(more[i], id)
    ensures late == Run(Apply(w, WriteAt(id, arrives, heard)), more) && Inv(late)
    ensures id in late.nodes && Waits(w.nodes[id], late.nodes[id])
    ensures Planned(w.nodes[id].device, w.nodes[id].flight.base, w.nodes[id].flight.plan)
    ensures w.nodes[id].flight.base <= late.store
  {
    Reachable(w, steps);
    var lost := Apply(w, WriteAt(id, arrives, heard));
    late := Run(lost, more);
    StepKeeps(w, WriteAt(id, arrives, heard));
    RunKeeps(lost, more);
    PlannedOnABeginning(w, id);
    UnheardStep(w, id, arrives, heard);
    QuietRun(lost, more, w.nodes[id], id);
  }

  lemma UnheardStep(w: World, id: nat, arrives: bool, heard: bool)
    requires id in w.nodes && w.nodes[id].flight.InFlight? && !(arrives && heard)
    ensures id in Apply(w, WriteAt(id, arrives, heard)).nodes
    ensures Waits(w.nodes[id], Apply(w, WriteAt(id, arrives, heard)).nodes[id])
  {
  }

  /** Nothing is waiting or in flight, nothing more was written, and each edit is a counted drop. */
  predicate RetriedAs(before: Node, after: Node, store: Log) {
    && after.flight.Grounded? && after.device.staged == [] && LogOf(after.device) == store
    && after.ledger.written == before.ledger.written
    && after.ledger.dropped == before.ledger.dropped + multiset(before.device.staged)
    && after.ledger.counted == before.ledger.counted + |before.device.staged| + before.device.dropped
  }

  lemma RetriedLedger(node: Node, store: Log)
    requires node.flight.Grounded? && CountsEach(node.device, store)
    ensures RetriedAs(node, BeginNode(node, Serve(store)), store)
    ensures RetriedAs(node, RefreshNode(node, Serve(store)), store)
  {
    var none: seq<Edit> := [];
    assert multiset(node.device.staged) - multiset(none) == multiset(node.device.staged);
  }

  lemma RetriedNode(before: Node, node: Node)
    requires before.flight.InFlight? && Planned(before.device, before.flight.base, before.flight.plan)
    requires Waits(before, node)
    ensures RetriedAs(before, BeginNode(node, Serve(Landed(before))), Landed(before))
    ensures RetriedAs(before, RefreshNode(node, Serve(Landed(before))), Landed(before))
  {
    LostAnswer(node.device, before.flight.base, before.flight.plan, Transport);
    RetriedLedger(node, Landed(before));
  }

  /**
   * Exactly once across a lost answer. However the write fared when it was sent, and whatever
   * everyone else did since, if the store then holds it and nothing after it, the next read of
   * the device that reaches the store, be it a refresh's or a retried publish's, finds every
   * edit written: nothing is written twice, and each edit is counted as dropped.
   */
  lemma ExactlyOnce(w: World, steps: seq<Step>, id: nat, arrives: bool, heard: bool, more: seq<Step>)
    returns (late: World, begun: World, refreshed: World)
    requires Reached(w, steps) && id in w.nodes && w.nodes[id].flight.InFlight? && !(arrives && heard)
    requires forall i :: 0 <= i < |more| ==> Quiet(more[i], id)
    requires Run(Apply(w, WriteAt(id, arrives, heard)), more).store == Landed(w.nodes[id])
    ensures late == Run(Apply(w, WriteAt(id, arrives, heard)), more)
    ensures begun == Apply(late, BeginAt(id, true)) && refreshed == Apply(late, RefreshAt(id, true))
    ensures begun.store == refreshed.store == Landed(w.nodes[id])
    ensures id in begun.nodes && RetriedAs(w.nodes[id], begun.nodes[id], begun.store)
    ensures id in refreshed.nodes && RetriedAs(w.nodes[id], refreshed.nodes[id], refreshed.store)
  {
    late := AfterUnheard(w, steps, id, arrives, heard, more);
    begun, refreshed := NextReads(late, id);
    RetriedNode(w.nodes[id], late.nodes[id]);
  }

  lemma NextReads(w: World, id: nat) returns (begun: World, refreshed: World)
    requires Idle(w, id)
    ensures begun == Apply(w, BeginAt(id, true)) && refreshed == Apply(w, RefreshAt(id, true))
    ensures begun.store == w.store == refreshed.store && id in begun.nodes && id in refreshed.nodes
    ensures begun.nodes[id] == BeginNode(w.nodes[id], Serve(w.store))
    ensures refreshed.nodes[id] == RefreshNode(w.nodes[id], Serve(w.store))
  {
    begun, refreshed := Apply(w, BeginAt(id, true)), Apply(w, RefreshAt(id, true));
  }

  /** The request can still land after its sender gave up on it: as anyone's write of the same log would. */
  lemma LandsLate(w: World, steps: seq<Step>, id: nat, later: World)
    requires Reached(w, steps) && id in w.nodes && w.nodes[id].flight.InFlight?
    requires w.nodes[id].flight.base <= later.store
    ensures
      var step := Elsewhere(w.nodes[id].flight.base, w.nodes[id].flight.plan);
      && Enabled(later, step) && Quiet(step, id)
      && (later.store <= Landed(w.nodes[id]) <==> Apply(later, step).store == Landed(w.nodes[id]))
  {
    Reachable(w, steps);
    PlannedOnABeginning(w, id);
    var node := w.nodes[id];
    PlannedLog(node.device, node.flight.base, node.flight.plan);
    PlanEffect(node.flight.base, node.device.staged, 0);
  }

  /** What a refresh after others wrote leaves: the edits they undid still staged, every other one counted. */
  predicate RefreshedAs(before: Node, after: Node, store: Log)
    requires before.flight.InFlight?
  {
    && after.flight.Grounded? && LogOf(after.device) == store
    && after.device.staged == Settled(store, before.device.staged)
    && after.device.dropped == 0
    && after.ledger.written == before.ledger.written
    && after.ledger.counted + |after.device.staged| ==
         before.ledger.counted + |before.device.staged| + before.device.dropped
    && (forall edit :: edit in after.device.staged ==> !edit.Revoke? && UndoneSince(Landed(before), store, edit))
    && (forall edit :: edit in before.device.staged && edit !in after.device.staged ==> Holds(store, edit))
  }

  lemma RefreshedNode(before: Node, node: Node, store: Log)
    requires before.flight.InFlight? && Planned(before.device, before.flight.base, before.flight.plan)
    requires Waits(before, node) && Landed(before) <= store && Valid(store) && EncodeError(store).None?
    ensures RefreshedAs(before, RefreshNode(node, Serve(store)), store)
  {
    LostAnswerThenOthers(node.device, before.flight.base, before.flight.plan, store);
  }

  /** What the read of a retried publish after others wrote leaves, and what it goes on to write. */
  ghost predicate BegunAs(before: Node, after: Node, store: Log)
    requires before.flight.InFlight?
  {
    var left := Settled(store, before.device.staged);
    && LogOf(after.device) == store && after.device.staged == left
    && after.ledger.written == before.ledger.written
    && (forall edit :: edit in left ==> !edit.Revoke? && UndoneSince(Landed(before), store, edit))
    && (forall edit :: edit in before.device.staged && edit !in left ==> Holds(store, edit))
    && after.flight ==
         (if left != [] && WithinBudget(store, left) then InFlight(store, Plan(left)) else Grounded)
    && (left == [] ==>
          after.ledger.counted == before.ledger.counted + |before.device.staged| + before.device.dropped)
  }

  lemma BegunNode(before: Node, node: Node, store: Log)
    requires before.flight.InFlight? && Planned(before.device, before.flight.base, before.flight.plan)
    requires Waits(before, node) && Landed(before) <= store && Valid(store) && EncodeError(store).None?
    ensures BegunAs(before, BeginNode(node, Serve(store)), store)
  {
    RetryAfterOthers(node.device, before.flight.base, before.flight.plan, store);
  }

  /**
   * The same where others have written after it, as long as they are builds this one reads: the
   * next refresh leaves only what they undid since, no revocation among it, and each edit it
   * counts as dropped holds in the store; and a retried publish goes on to write exactly that.
   */
  lemma RetryAfterOthersWrote(w: World, steps: seq<Step>, id: nat, arrives: bool, heard: bool, more: seq<Step>)
    returns (late: World, begun: World, refreshed: World)
    requires Reached(w, steps) && id in w.nodes && w.nodes[id].flight.InFlight? && !(arrives && heard)
    requires forall i :: 0 <= i < |more| ==> Quiet(more[i], id)
    requires Landed(w.nodes[id]) <= Run(Apply(w, WriteAt(id, arrives, heard)), more).store
    requires !HasUnknown(Run(Apply(w, WriteAt(id, arrives, heard)), more).store)
    ensures late == Run(Apply(w, WriteAt(id, arrives, heard)), more)
    ensures begun == Apply(late, BeginAt(id, true)) && refreshed == Apply(late, RefreshAt(id, true))
    ensures begun.store == late.store == refreshed.store
    ensures id in begun.nodes && BegunAs(w.nodes[id], begun.nodes[id], late.store)
    ensures id in refreshed.nodes && RefreshedAs(w.nodes[id], refreshed.nodes[id], late.store)
  {
    late := AfterUnheard(w, steps, id, arrives, heard, more);
    begun, refreshed := NextReads(late, id);
    BegunNode(w.nodes[id], late.nodes[id], late.store);
    RefreshedNode(w.nodes[id], late.nodes[id], late.store);
  }
}
