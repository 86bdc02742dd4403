/**
 * What may enter each place of a device's ledger. With every edit taken in exactly one
 * place, this says what became of it and why.
 */
module Bookkeeping {
  import opened Basics
  import opened AccountLog
  import opened Codec
  import opened Staging
  import opened AccountDevice
  import opened DeviceTheorems
  import opened Protocol

  /** The edit a step asks a device to stage. */
  function EditAsked(step: Step): Option<Edit> {
    match step
    case StageKeyAt(_, key) => Some(AddInstallation(key))
    case StageNameAt(_, name) => Some(SetDisplayName(name))
    case StageRevokeAt(_, index) => Some(Revoke(index))
    case _ => None
  }

  /** Whether `edit` is more often in a place after the step than before. */
  predicate Enters(before: multiset<Edit>, after: multiset<Edit>, edit: Edit) {
    after[edit] > before[edit]
  }

  /** An edit is taken where it was asked for, once a step. */
  ghost predicate TakesOnly(step: Step, before: Ledger, after: Ledger) {
    && before.taken <= after.taken
    && forall edit :: Enters(before.taken, after.taken, edit) ==>
         EditAsked(step) == Some(edit) && after.taken[edit] == before.taken[edit] + 1
  }

  /** A staged edit is thrown away by a discard or a forget, or as a name by the staging of a name. */
  ghost predicate ThrowsOnly(step: Step, before: Node, after: Ledger) {
    && before.ledger.thrown <= after.thrown
    && forall edit :: Enters(before.ledger.thrown, after.thrown, edit) ==>
         && edit in before.device.staged
         && (step.DiscardAt? || step.ForgetAt? || (step.StageNameAt? && edit.SetDisplayName?))
  }

  /** A staged edit is dropped by a read, and holds in the log read. */
  ghost predicate DropsOnly(step: Step, before: Node, after: Node) {
    && before.ledger.dropped <= after.ledger.dropped
    && forall edit :: Enters(before.ledger.dropped, after.ledger.dropped, edit) ==>
         && edit in before.device.staged
         && (step.RefreshAt? || step.BeginAt?)
         && Holds(LogOf(after.device), edit)
  }

  /** A staged edit is written by an answered write, and holds in the store. */
  ghost predicate WritesOnly(step: Step, before: Node, after: Ledger, store: Log) {
    && before.ledger.written <= after.written
    && forall edit :: Enters(before.ledger.written, after.written, edit) ==>
         && edit in before.device.staged
         && (step.WriteAt? && step.arrives && step.heard)
         && Holds(store, edit)
  }

  /** `store` is the store's log once the step is done. */
  ghost predicate Books(step: Step, before: Node, after: Node, store: Log) {
    && TakesOnly(step, before.ledger, after.ledger)
    && ThrowsOnly(step, before, after.ledger)
    && DropsOnly(step, before, after)
    && WritesOnly(step, before, after.ledger, store)
  }

  // ---------- Staging ----------

  lemma {:induction false} OthersCounted(staged: seq<Edit>, edit: Edit)
    ensures multiset(WithoutNames(staged))[edit] == if edit.SetDisplayName? then 0 else multiset(staged)[edit]
  {
    if staged != [] {
      var before, last := staged[..|staged| - 1], staged[|staged| - 1];
      OthersCounted(before, edit);
      LastOf(staged);
      Appended(WithoutNames(before), last);
    }
  }

  /** Adding an edit to a list, or refusing it, takes that edit at most and throws none away. */
  lemma AppendBooks(step: Step, node: Node, after: Device, edit: Edit, store: Log)
    requires EditAsked(step) == Some(edit)
    requires after.staged == node.device.staged || after.staged == node.device.staged + [edit]
    ensures Books(step, node, Edited(node, after), store)
  {
    Appended(node.device.staged, edit);
  }

  /** What a staged name makes of the list, edit by edit. */
  lemma NameStages(d: Device, after: Device, name: Bytes, edit: Edit)
    requires
      var others := WithoutNames(d.staged);
      || after.staged == d.staged || after.staged == others
      || after.staged == others + [SetDisplayName(name)]
    ensures !edit.SetDisplayName? ==> multiset(after.staged)[edit] == multiset(d.staged)[edit]
    ensures edit.SetDisplayName? && edit != SetDisplayName(name) ==>
              multiset(after.staged)[edit] <= multiset(d.staged)[edit]
    ensures multiset(after.staged)[SetDisplayName(name)] <= multiset(d.staged)[SetDisplayName(name)] + 1
  {
    var others := WithoutNames(d.staged);
    OthersCounted(d.staged, edit);
    OthersCounted(d.staged, SetDisplayName(name));
    Appended(others, SetDisplayName(name));
  }

  lemma NameBooks(step: Step, node: Node, after: Device, name: Bytes, store: Log)
    requires step.StageNameAt? && EditAsked(step) == Some(SetDisplayName(name))
    requires
      var others := WithoutNames(node.device.staged);
      || after.staged == node.device.staged || after.staged == others
      || after.staged == others + [SetDisplayName(name)]
    ensures Books(step, node, Edited(node, after), store)
  {
    var ledger := Edited(node, after).ledger;
    forall edit | Enters(node.ledger.taken, ledger.taken, edit)
      ensures edit == SetDisplayName(name) && ledger.taken[edit] == node.ledger.taken[edit] + 1
    {
      NameStages(node.device, after, name, edit);
    }
    forall edit | Enters(node.ledger.thrown, ledger.thrown, edit)
      ensures edit in node.device.staged && edit.SetDisplayName?
    {
      NameStages(node.device, after, name, edit);
      assert edit in multiset(node.device.staged);
    }
  }

  lemma StageKeyBooks(node: Node, step: Step, store: Log)
    requires Admitted(node.device) && step.StageKeyAt?
    ensures Books(step, node, Local(node, step, store), store)
  {
    AppendBooks(step, node, StageAddInstallation(node.device, step.key).0, AddInstallation(step.key), store);
  }

  lemma StagedNameList(d: Device, name: Bytes)
    ensures
      var (after, others) := (StageSetDisplayName(d, name).0, WithoutNames(d.staged));
      after.staged == d.staged || after.staged == others || after.staged == others + [SetDisplayName(name)]
  {
  }

  lemma StageNameBooks(node: Node, step: Step, store: Log)
    requires Admitted(node.device) && step.StageNameAt?
    ensures Books(step, node, Local(node, step, store), store)
  {
    StagedNameList(node.device, step.name);
    NameBooks(step, node, StageSetDisplayName(node.device, step.name).0, step.name, store);
  }

  lemma StageRevokeBooks(node: Node, step: Step, store: Log)
    requires Admitted(node.device) && step.StageRevokeAt?
    ensures Books(step, node, Local(node, step, store), store)
  {
    AppendBooks(step, node, StageRevoke(node.device, step.index).0, Revoke(step.index), store);
  }

  lemma ThrowAwayBooks(node: Node, step: Step, store: Log)
    requires step.DiscardAt? || step.ForgetAt? || step.UnreadAt?
    ensures Books(step, node, Local(node, step, store), store)
  {
    var none: multiset<Edit> := multiset([]);
    assert none - multiset(node.device.staged) == multiset{};
  }

  // ---------- Reading ----------

  /** A list a read shortened lost each edit whole, and the log read holds it. */
  lemma LostToARead(d: Device, f: Fetched, edit: Edit)
    requires Admitted(d) && Genuine(f)
    requires multiset(ReadStore(d, f).0.staged)[edit] < multiset(d.staged)[edit]
    ensures edit in d.staged && Holds(LogOf(ReadStore(d, f).0), edit)
  {
    CountedOnce(d.staged, edit);
    assert edit in multiset(d.staged);
    assert edit in ReadStore(d, f).0.staged ==> edit in multiset(ReadStore(d, f).0.staged);
    DroppedHolds(d, f, edit);
  }

  lemma ReadBooks(step: Step, node: Node, after: Device, counted: nat, f: Fetched, store: Log)
    requires Admitted(node.device) && Genuine(f) && (step.RefreshAt? || step.BeginAt?)
    requires after.staged == ReadStore(node.device, f).0.staged && LogOf(after) == LogOf(ReadStore(node.device, f).0)
    ensures Books(step, node, ReadBy(node, after, counted), store)
  {
    forall edit | Enters(node.ledger.dropped, ReadBy(node, after, counted).ledger.dropped, edit)
      ensures edit in node.device.staged && Holds(LogOf(after), edit)
    {
      LostToARead(node.device, f, edit);
    }
  }

  lemma NothingReadBooks(step: Step, node: Node, store: Log)
    ensures Books(step, node, ReadBy(node, node.device, 0), store)
  {
  }

  lemma RefreshBooks(node: Node, step: Step, store: Log)
    requires Admitted(node.device) && step.RefreshAt? && EncodeError(store).None?
    ensures Books(step, node, Local(node, step, store), store)
  {
    var f := Fetch(store, step.reached);
    var (after, answer) := Refresh(node.device, f);
    ReadBooks(step, node, after, if answer.Ok? then answer.value else 0, f, store);
  }

  lemma BeginLeaves(d: Device, f: Fetched)
    requires d.staged != []
    ensures
      var after, read := BeginPublish(d, f).0, ReadStore(d, f).0;
      after.staged == read.staged && LogOf(after) == LogOf(read)
  {
  }

  lemma BeginBooks(node: Node, step: Step, store: Log)
    requires Admitted(node.device) && step.BeginAt? && EncodeError(store).None?
    ensures Books(step, node, Local(node, step, store), store)
  {
    var f := Fetch(store, step.reached);
    var (after, start) := BeginPublish(node.device, f);
    if node.device.staged == [] {
      NothingReadBooks(step, node, store);
    } else {
      BeginLeaves(node.device, f);
      ReadBooks(step, node, after, if start.AlreadyHeld? then start.dropped else 0, f, store);
    }
  }

  // ---------- Writing ----------

  lemma FinishBooks(node: Node, step: Step, answer: WriteAnswer, store: Log)
    requires node.flight.InFlight? && Planned(node.device, node.flight.base, node.flight.plan) && step.WriteAt?
    requires answer.Taken? ==> step.arrives && step.heard && store == node.flight.base + node.flight.plan
    ensures Books(step, node, FinishNode(node, answer), store)
  {
    PlannedLog(node.device, node.flight.base, node.flight.plan);
    forall edit | edit in multiset(node.device.staged)
      ensures edit in node.device.staged
    {
    }
  }

  lemma LocalBooks(node: Node, step: Step, store: Log)
    requires Admitted(node.device) && EncodeError(store).None? && TouchesNoStore(step)
    requires step.StageRevokeAt? ==> step.index < 0x1_0000_0000
    ensures Books(step, node, Local(node, step, store), store)
  {
    if step.StageKeyAt? {
      StageKeyBooks(node, step, store);
    } else if step.StageNameAt? {
      StageNameBooks(node, step, store);
    } else if step.StageRevokeAt? {
      StageRevokeBooks(node, step, store);
    } else if step.RefreshAt? {
      RefreshBooks(node, step, store);
    } else if step.BeginAt? {
      BeginBooks(node, step, store);
    } else {
      ThrowAwayBooks(node, step, store);
    }
  }

  /**
   * In every run, the next step changes the ledger of no device but its own, and there: what is
   * taken was asked for; what is thrown away was discarded, forgotten, or a name another
   * replaced; what is dropped holds in the log read; and what is written holds in the store.
   */
  lemma EveryStepBooks(w: World, steps: seq<Step>, step: Step, id: nat)
    requires Reached(w, steps) && id in w.nodes
    ensures
      var after := Apply(w, step);
      && id in after.nodes
      && if step.Elsewhere? || step.id != id then after.nodes[id] == w.nodes[id]
         else Books(step, w.nodes[id], after.nodes[id], after.store)
  {
    Reachable(w, steps);
    assert NodeInv(w.store, w.nodes[id]);
    if !step.Elsewhere? && step.id == id {
      if !Enabled(w, step) {
        IdleBooks(step, w.nodes[id], w.store);
      } else if step.WriteAt? {
        WriteBooks(w, step);
      } else {
        LocalBooks(w.nodes[id], step, w.store);
      }
    }
  }

  lemma IdleBooks(step: Step, node: Node, store: Log)
    ensures Books(step, node, node, store)
  {
  }

  lemma WriteBooks(w: World, step: Step)
    requires Inv(w) && step.WriteAt? && Enabled(w, step)
    ensures step.id in Apply(w, step).nodes
    ensures Books(step, w.nodes[step.id], Apply(w, step).nodes[step.id], Apply(w, step).store)
  {
    var node := w.nodes[step.id];
    var candidate := node.flight.base + node.flight.plan;
    assert NodeInv(w.store, node);
    FinishBooks(node, step, Answer(w.store, candidate, step.arrives, step.heard), Apply(w, step).store);
  }
}
