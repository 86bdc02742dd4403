/**
 * Any number of devices holding one account's key against one store. A publish is two
 * network steps, a read and then a write, and other devices' steps fall between them. A
 * write can land and its answer be lost. A device stages, reads and writes by the same
 * functions `AccountCore` is proved against, and can have what it read dropped from under
 * what it staged.
 */
module Protocol {
  import opened Basics
  import opened AccountLog
  import opened Codec
  import opened Staging
  import opened Publishing
  import Profile
  import opened AccountDevice
  import opened DeviceTheorems

  /** Where each edit a device ever took went, and how many of the dropped ones an answer counted. */
  datatype Ledger = Ledger(
    taken: multiset<Edit>,
    written: multiset<Edit>,
    dropped: multiset<Edit>,
    thrown: multiset<Edit>,
    counted: nat,
    uncounted: nat)

  const NEW_LEDGER := Ledger(multiset{}, multiset{}, multiset{}, multiset{}, 0, 0)

  datatype Flight = Grounded | InFlight(base: Log, plan: seq<Entry>)

  datatype Node = Node(device: Device, flight: Flight, ledger: Ledger)

  datatype World = World(store: Log, nodes: map<nat, Node>)

  datatype Step =
    | Join(id: nat)
    | StageKeyAt(id: nat, key: Key)
    | StageNameAt(id: nat, name: Bytes)
    | StageRevokeAt(id: nat, index: nat)
    | DiscardAt(id: nat)
    | ForgetAt(id: nat)
    | UnreadAt(id: nat)
    | RefreshAt(id: nat, reached: bool)
    | BeginAt(id: nat, reached: bool)
    | WriteAt(id: nat, arrives: bool, heard: bool)
    | Elsewhere(base: Log, entries: seq<Entry>)

  predicate HasUnknown(log: Log) {
    exists i :: 0 <= i < |log| && log[i].Unknown?
  }

  /** What another client can sign: a log this build reads, or one a newer build wrote an entry of. */
  predicate Signable(log: Log) {
    EncodeError(log).None? && (Valid(log) || HasUnknown(log))
  }

  predicate Idle(w: World, id: nat) {
    id in w.nodes && w.nodes[id].flight.Grounded?
  }

  predicate Enabled(w: World, step: Step) {
    match step
    case Join(id) => id !in w.nodes
    case StageRevokeAt(id, index) => Idle(w, id) && index < 0x1_0000_0000
    case WriteAt(id, _, _) => id in w.nodes && w.nodes[id].flight.InFlight?
    case Elsewhere(base, entries) => base <= w.store && entries != [] && Signable(base + entries)
    case _ => Idle(w, step.id)
  }

  /** What the network makes of a fetch: the store's current log, or nothing heard. */
  function Fetch(store: Log, reached: bool): Fetched {
    if reached then Serve(store) else NoAnswer
  }

  /** The store's log gives way to a candidate that starts with it, and to no other. */
  function Stored(store: Log, candidate: Log): Log {
    if store <= candidate then candidate else store
  }

  /** Staging, replacing and discarding: what is new was taken, what is gone was thrown away. */
  function Edited(node: Node, after: Device): Node {
    var b, a := multiset(node.device.staged), multiset(after.staged);
    node.(device := after,
          ledger := node.ledger.(taken := node.ledger.taken + (a - b), thrown := node.ledger.thrown + (b - a)))
  }

  /** A read, and the count its call answered. */
  function ReadBy(node: Node, after: Device, counted: nat): Node {
    var b, a := multiset(node.device.staged), multiset(after.staged);
    node.(device := after,
          ledger := node.ledger.(dropped := node.ledger.dropped + (b - a), counted := node.ledger.counted + counted))
  }

  function RefreshNode(node: Node, f: Fetched): Node {
    var (after, answer) := Refresh(node.device, f);
    ReadBy(node, after, if answer.Ok? then answer.value else 0)
  }

  function BeginNode(node: Node, f: Fetched): Node {
    var (after, start) := BeginPublish(node.device, f);
    var read := ReadBy(node, after, if start.AlreadyHeld? then start.dropped else 0);
    if start.Writes? then read.(flight := InFlight(start.base, start.plan)) else read
  }

  function Answer(store: Log, candidate: Log, arrives: bool, heard: bool): WriteAnswer {
    if !arrives || !heard then NotTaken(Transport)
    else if store <= candidate then Taken
    else NotTaken(Diverged)
  }

  function FinishNode(node: Node, answer: WriteAnswer): Node
    requires node.flight.InFlight?
  {
    var after := FinishPublish(node.device, node.flight.base, node.flight.plan, answer).0;
    var ledger :=
      if answer.Taken? then
        node.ledger.(written := node.ledger.written + multiset(node.device.staged),
                     counted := node.ledger.counted + node.device.dropped)
      else node.ledger;
    Node(after, Grounded, ledger)
  }

  function ForgetNode(node: Node): Node {
    var edited := Edited(node, Forget(node.device));
    edited.(ledger := edited.ledger.(uncounted := node.ledger.uncounted + node.device.dropped))
  }

  /** What a stop leaves of an account whose key is held too: its list, and no count of what was dropped. */
  function UnreadNode(node: Node): Node {
    node.(device := Unread(node.device),
          ledger := node.ledger.(uncounted := node.ledger.uncounted + node.device.dropped))
  }

  /** One step. A step that is not enabled changes nothing. */
  function Apply(w: World, step: Step): World {
    if !Enabled(w, step) then w
    else
      match step
      case Join(id) => w.(nodes := w.nodes[id := Node(NEW_DEVICE, Grounded, NEW_LEDGER)])
      case Elsewhere(base, entries) => w.(store := Stored(w.store, base + entries))
      case WriteAt(id, arrives, heard) =>
        var node := w.nodes[id];
        var candidate := node.flight.base + node.flight.plan;
        World(if arrives then Stored(w.store, candidate) else w.store,
              w.nodes[id := FinishNode(node, Answer(w.store, candidate, arrives, heard))])
      case _ => w.(nodes := w.nodes[step.id := Local(w.nodes[step.id], step, w.store)])
  }

  /** The steps that touch one device and not the store. */
  function Local(node: Node, step: Step, store: Log): Node {
    match step
    case StageKeyAt(_, key) => Edited(node, StageAddInstallation(node.device, key).0)
    case StageNameAt(_, name) => Edited(node, StageSetDisplayName(node.device, name).0)
    case StageRevokeAt(_, index) => Edited(node, StageRevoke(node.device, index).0)
    case DiscardAt(_) => Edited(node, Discard(node.device))
    case ForgetAt(_) => ForgetNode(node)
    case UnreadAt(_) => UnreadNode(node)
    case RefreshAt(_, reached) => RefreshNode(node, Fetch(store, reached))
    case BeginAt(_, reached) => BeginNode(node, Fetch(store, reached))
    case _ => node
  }

  function Run(w: World, steps: seq<Step>): World {
    if steps == [] then w else Apply(Run(w, steps[..|steps| - 1]), steps[|steps| - 1])
  }

  const START := World([], map[])

  // ---------- The invariant ----------

  /** Each edit taken is in exactly one place, and each dropped one is counted, waiting, or forgotten. */
  predicate Accounted(node: Node) {
    var l := node.ledger;
    && l.taken == multiset(node.device.staged) + l.written + l.dropped + l.thrown
    && |l.dropped| == l.counted + node.device.dropped + l.uncounted
  }

  predicate NodeInv(store: Log, node: Node) {
    && Admitted(node.device)
    && Accounted(node)
    && (node.device.held.Some? ==> node.device.held.value <= store && store != [])
    && (node.flight.InFlight? ==>
          Planned(node.device, node.flight.base, node.flight.plan) && node.flight.base <= store)
  }

  predicate Inv(w: World) {
    && EncodeError(w.store).None?
    && (HasUnknown(w.store) || Valid(w.store))
    && forall id :: id in w.nodes ==> NodeInv(w.store, w.nodes[id])
  }

  lemma EditedKeeps(store: Log, node: Node, after: Device)
    requires NodeInv(store, node) && node.flight.Grounded? && Admitted(after)
    requires after == node.device.(staged := after.staged)
    ensures NodeInv(store, Edited(node, after))
  {
  }

  lemma {:induction false} SettledWithin(log: Log, staged: seq<Edit>)
    ensures multiset(Settled(log, staged)) <= multiset(staged)
  {
    if staged != [] {
      var before, last := staged[..|staged| - 1], staged[|staged| - 1];
      SettledWithin(log, before);
      LastOf(staged);
      Appended(Settled(log, before), last);
    }
  }

  lemma StagedWithin(d: Device, f: Fetched)
    requires Admitted(d) && Genuine(f)
    ensures multiset(ReadStore(d, f).0.staged) <= multiset(d.staged)
  {
    ReadKeeps(d, f);
    SettledWithin(LogOf(ReadStore(d, f).0), d.staged);
  }

  lemma ReadByKeeps(store: Log, node: Node, after: Device, counted: nat)
    requires NodeInv(store, node) && node.flight.Grounded? && Admitted(after)
    requires multiset(after.staged) <= multiset(node.device.staged)
    requires |node.device.staged| + node.device.dropped == |after.staged| + after.dropped + counted
    requires after.held.Some? ==> after.held.value <= store && store != []
    ensures NodeInv(store, ReadBy(node, after, counted))
  {
    var b, a := multiset(node.device.staged), multiset(after.staged);
    assert b == a + (b - a);
    assert |b| == |node.device.staged| && |a| == |after.staged|;
  }

  /** A read of the store's own log leaves a device holding that log, or what it held. */
  lemma HeldAfterRead(store: Log, d: Device, reached: bool)
    requires d.held.Some? ==> d.held.value <= store && store != []
    ensures
      var after := ReadStore(d, Fetch(store, reached)).0;
      after.held.Some? ==> after.held.value <= store && store != []
  {
  }

  lemma RefreshKeeps(store: Log, node: Node, reached: bool)
    requires NodeInv(store, node) && node.flight.Grounded? && EncodeError(store).None?
    ensures NodeInv(store, RefreshNode(node, Fetch(store, reached)))
  {
    var d, f := node.device, Fetch(store, reached);
    ReadKeeps(d, f);
    StagedWithin(d, f);
    HeldAfterRead(store, d, reached);
    var (after, answer) := Refresh(d, f);
    ReadByKeeps(store, node, after, if answer.Ok? then answer.value else 0);
  }

  /** The read of a publish is a read. */
  lemma BeginReads(d: Device, f: Fetched)
    ensures
      var after, read := BeginPublish(d, f).0, ReadStore(d, f).0;
      after == d || (after.held == read.held && after.staged == read.staged)
  {
  }

  lemma TakesOff(store: Log, node: Node, base: Log, plan: seq<Entry>)
    requires NodeInv(store, node) && Planned(node.device, base, plan) && base <= store
    ensures NodeInv(store, node.(flight := InFlight(base, plan)))
  {
  }

  lemma BaseIsHeld(store: Log, d: Device, base: Log, plan: seq<Entry>)
    requires Planned(d, base, plan) && (d.held.Some? ==> d.held.value <= store)
    ensures base <= store
  {
  }

  lemma BeginKeeps(store: Log, node: Node, reached: bool)
    requires NodeInv(store, node) && node.flight.Grounded? && EncodeError(store).None?
    ensures NodeInv(store, BeginNode(node, Fetch(store, reached)))
  {
    var d, f := node.device, Fetch(store, reached);
    var (after, start) := BeginPublish(d, f);
    var counted := if start.AlreadyHeld? then start.dropped else 0;
    BeginPublishKeeps(d, f);
    BeginReads(d, f);
    StagedWithin(d, f);
    HeldAfterRead(store, d, reached);
    ReadByKeeps(store, node, after, counted);
    if start.Writes? {
      BaseIsHeld(store, after, start.base, start.plan);
      TakesOff(store, ReadBy(node, after, counted), start.base, start.plan);
    }
  }

  lemma StageKeyKeeps(store: Log, node: Node, step: Step)
    requires NodeInv(store, node) && node.flight.Grounded? && step.StageKeyAt?
    ensures NodeInv(store, Local(node, step, store))
  {
    StagingAKeySustains(node.device, step.key);
    EditedKeeps(store, node, StageAddInstallation(node.device, step.key).0);
  }

  lemma StageNameKeeps(store: Log, node: Node, step: Step)
    requires NodeInv(store, node) && node.flight.Grounded? && step.StageNameAt?
    ensures NodeInv(store, Local(node, step, store))
  {
    StagingANameSustains(node.device, step.name);
    EditedKeeps(store, node, StageSetDisplayName(node.device, step.name).0);
  }

  lemma StageRevokeKeeps(store: Log, node: Node, step: Step)
    requires NodeInv(store, node) && node.flight.Grounded? && step.StageRevokeAt? && step.index < 0x1_0000_0000
    ensures NodeInv(store, Local(node, step, store))
  {
    StagingARevocationSustains(node.device, step.index);
    EditedKeeps(store, node, StageRevoke(node.device, step.index).0);
  }

  lemma DiscardKeeps(store: Log, node: Node)
    requires NodeInv(store, node) && node.flight.Grounded?
    ensures NodeInv(store, Edited(node, Discard(node.device)))
  {
    EditedKeeps(store, node, Discard(node.device));
  }

  lemma ForgetKeeps(store: Log, node: Node)
    requires NodeInv(store, node) && node.flight.Grounded?
    ensures NodeInv(store, ForgetNode(node))
  {
  }

  lemma UnreadKeeps(store: Log, node: Node)
    requires NodeInv(store, node) && node.flight.Grounded?
    ensures NodeInv(store, UnreadNode(node))
  {
    UnreadStrands(node.device);
  }

  lemma LocalKeeps(store: Log, node: Node, step: Step)
    requires NodeInv(store, node) && node.flight.Grounded? && EncodeError(store).None?
    requires step.StageRevokeAt? ==> step.index < 0x1_0000_0000
    ensures NodeInv(store, Local(node, step, store))
  {
    if step.StageKeyAt? {
      StageKeyKeeps(store, node, step);
    } else if step.StageNameAt? {
      StageNameKeeps(store, node, step);
    } else if step.StageRevokeAt? {
      StageRevokeKeeps(store, node, step);
    } else if step.DiscardAt? {
      DiscardKeeps(store, node);
    } else if step.ForgetAt? {
      ForgetKeeps(store, node);
    } else if step.UnreadAt? {
      UnreadKeeps(store, node);
    } else if step.RefreshAt? {
      RefreshKeeps(store, node, step.reached);
    } else if step.BeginAt? {
      BeginKeeps(store, node, step.reached);
    }
  }

  /** A node stands on a longer store as it stood on a shorter one. */
  lemma NodeOnLongerStore(store: Log, longer: Log, node: Node)
    requires NodeInv(store, node) && store <= longer
    ensures NodeInv(longer, node)
  {
  }

  lemma WrittenIsAccounted(node: Node, answer: WriteAnswer)
    requires Accounted(node) && node.flight.InFlight?
    ensures Accounted(FinishNode(node, answer))
  {
  }

  lemma FinishKeeps(store: Log, node: Node, answer: WriteAnswer)
    requires NodeInv(store, node) && node.flight.InFlight?
    requires answer.Taken? ==> store == node.flight.base + node.flight.plan
    ensures NodeInv(store, FinishNode(node, answer))
  {
    WrittenIsAccounted(node, answer);
    if answer.Taken? {
      AcknowledgedPublish(node.device, node.flight.base, node.flight.plan);
      PlannedLog(node.device, node.flight.base, node.flight.plan);
    }
  }

  /** One device's step on a store that is kept or extended leaves every other device as it stood. */
  lemma WorldKeeps(w: World, store: Log, id: nat, node: Node)
    requires Inv(w) && w.store <= store && NodeInv(store, node)
    requires EncodeError(store).None? && (HasUnknown(store) || Valid(store))
    ensures Inv(World(store, w.nodes[id := node]))
  {
    var after := World(store, w.nodes[id := node]);
    forall other | other in after.nodes
      ensures NodeInv(store, after.nodes[other])
    {
      if other != id {
        NodeOnLongerStore(w.store, store, w.nodes[other]);
      }
    }
  }

  function StoreAfter(store: Log, node: Node, arrives: bool): Log
    requires node.flight.InFlight?
  {
    if arrives then Stored(store, node.flight.base + node.flight.plan) else store
  }

  lemma StoreAfterWrite(store: Log, node: Node, arrives: bool)
    requires NodeInv(store, node) && node.flight.InFlight?
    requires EncodeError(store).None? && (HasUnknown(store) || Valid(store))
    ensures
      var after := StoreAfter(store, node, arrives);
      store <= after && EncodeError(after).None? && (HasUnknown(after) || Valid(after))
  {
    PlannedLog(node.device, node.flight.base, node.flight.plan);
  }

  lemma NodeAfterWrite(store: Log, node: Node, arrives: bool, heard: bool)
    requires NodeInv(store, node) && node.flight.InFlight?
    ensures
      var answer := Answer(store, node.flight.base + node.flight.plan, arrives, heard);
      NodeInv(StoreAfter(store, node, arrives), FinishNode(node, answer))
  {
    var after := StoreAfter(store, node, arrives);
    NodeOnLongerStore(store, after, node);
    FinishKeeps(after, node, Answer(store, node.flight.base + node.flight.plan, arrives, heard));
  }

  lemma WriteKeeps(w: World, id: nat, arrives: bool, heard: bool)
    requires Inv(w) && id in w.nodes && w.nodes[id].flight.InFlight?
    ensures Inv(Apply(w, WriteAt(id, arrives, heard)))
    ensures w.store <= Apply(w, WriteAt(id, arrives, heard)).store
  {
    var node := w.nodes[id];
    assert NodeInv(w.store, node);
    StoreAfterWrite(w.store, node, arrives);
    NodeAfterWrite(w.store, node, arrives, heard);
    var answer := Answer(w.store, node.flight.base + node.flight.plan, arrives, heard);
    WorldKeeps(w, StoreAfter(w.store, node, arrives), id, FinishNode(node, answer));
  }

  lemma ElsewhereKeeps(w: World, base: Log, entries: seq<Entry>)
    requires Inv(w) && Enabled(w, Elsewhere(base, entries))
    ensures Inv(Apply(w, Elsewhere(base, entries)))
    ensures w.store <= Apply(w, Elsewhere(base, entries)).store
  {
    var after := Apply(w, Elsewhere(base, entries));
    forall id | id in after.nodes
      ensures NodeInv(after.store, after.nodes[id])
    {
      NodeOnLongerStore(w.store, after.store, w.nodes[id]);
    }
  }

  predicate TouchesNoStore(step: Step) {
    !step.Join? && !step.WriteAt? && !step.Elsewhere?
  }

  lemma LocalStepKeeps(w: World, step: Step)
    requires Inv(w) && TouchesNoStore(step) && Enabled(w, step)
    ensures Inv(Apply(w, step)) && Apply(w, step).store == w.store
  {
    assert NodeInv(w.store, w.nodes[step.id]);
    LocalKeeps(w.store, w.nodes[step.id], step);
    WorldKeeps(w, w.store, step.id, Local(w.nodes[step.id], step, w.store));
  }

  /** Every step keeps the invariant, and the store's log only grows by appending. */
  lemma StepKeeps(w: World, step: Step)
    requires Inv(w)
    ensures Inv(Apply(w, step)) && w.store <= Apply(w, step).store
  {
    if Enabled(w, step) {
      match step
      case Join(_) =>
      case WriteAt(id, arrives, heard) => WriteKeeps(w, id, arrives, heard);
      case Elsewhere(base, entries) => ElsewhereKeeps(w, base, entries);
      case _ => LocalStepKeeps(w, step);
    }
  }

  lemma {:induction false} RunKeeps(w: World, steps: seq<Step>)
    requires Inv(w)
    ensures Inv(Run(w, steps)) && w.store <= Run(w, steps).store
  {
    if steps != [] {
      RunKeeps(w, steps[..|steps| - 1]);
      StepKeeps(Run(w, steps[..|steps| - 1]), steps[|steps| - 1]);
    }
  }

  // ---------- What every run shows ----------

  predicate Reached(w: World, steps: seq<Step>) {
    w == Run(START, steps)
  }

  lemma Reachable(w: World, steps: seq<Step>)
    requires Reached(w, steps)
    ensures Inv(w)
  {
    RunKeeps(START, steps);
  }

  /**
   * In every run of any devices, while every writer is a build that reads the log: each
   * revocation targets an entry live where it stands, and no key is ever live twice.
   */
  lemma StoredLogStaysValid(w: World, steps: seq<Step>)
    requires Reached(w, steps) && !HasUnknown(w.store)
    ensures Valid(w.store)
    ensures forall i: nat :: i < |w.store| && w.store[i].Remove? ==> Live(w.store[..i], w.store[i].index)
    ensures forall i: nat, j: nat ::
              (Live(w.store, i) && Live(w.store, j) && w.store[i].data.Ed25519Key? &&
               w.store[i].data == w.store[j].data) ==> i == j
  {
    Reachable(w, steps);
    forall i: nat | i < |w.store| && w.store[i].Remove?
      ensures Live(w.store[..i], w.store[i].index)
    {
      assert PushableAt(w.store, i);
    }
    forall i: nat, j: nat | Live(w.store, i) && Live(w.store, j) &&
      w.store[i].data.Ed25519Key? && w.store[i].data == w.store[j].data
      ensures i == j
    {
      KeysLiveOnce(w.store, i, j);
    }
  }

  /**
   * Whether the list can be published on the log shown: refused at its first revocation where
   * what was read was dropped from under it, and else for the byte budget alone.
   */
  predicate Publishable(d: Device) {
    if Stranded(d) then
      && RevokesOf(d.staged) != [] && RevokesOf(d.staged)[0].Revoke?
      && Unfit(d, d.staged) == Some(LogRefused(NotLive(RevokesOf(d.staged)[0].index)))
    else
      && WellStaged(LogOf(d), d.staged)
      && Valid(LogOf(d) + Plan(d.staged))
      && Unfit(d, d.staged) == if WithinBudget(LogOf(d), d.staged) then None else Some(OverBudget)
  }

  lemma ListIsPublishable(d: Device)
    requires Admitted(d) && Readable(d)
    ensures Publishable(d)
  {
    if Stranded(d) {
      StrandedRevokes(d);
      RevocationRefused(d.staged);
    } else {
      PlanPushes(LogOf(d), d.staged);
      OnlyTheBudgetRefuses(d, d.staged);
    }
  }

  /**
   * In every run, each device holds a beginning of the store's log; on a readable one its
   * staged list is publishable but for the byte budget, unless a stop stranded it; and every
   * edit it took is in exactly one place, each dropped one counted once at most.
   */
  lemma EveryDevice(w: World, steps: seq<Step>, id: nat)
    requires Reached(w, steps) && id in w.nodes
    ensures
      var node := w.nodes[id];
      var d := node.device;
      && LogOf(d) <= w.store
      && (Readable(d) ==> Publishable(d))
      && (Stranded(d) ==> !d.answered && RevokesAny(d.staged))
      && Accounted(node)
  {
    Reachable(w, steps);
    var d := w.nodes[id].device;
    assert NodeInv(w.store, w.nodes[id]);
    if Readable(d) {
      ListIsPublishable(d);
    }
    if Stranded(d) {
      StandsOnNothing(d.staged);
    }
  }

  /** A device's own steps are carried out: what fits is staged, and what is thrown away is gone. */
  lemma StepsAreCarriedOut(w: World, steps: seq<Step>, id: nat, key: Key, index: nat)
    requires Reached(w, steps) && Idle(w, id) && index < 0x1_0000_0000
    ensures
      var d := w.nodes[id].device;
      var (added, revoked) := (Apply(w, StageKeyAt(id, key)), Apply(w, StageRevokeAt(id, index)));
      Readable(d) && !Stranded(d) ==>
        && (!KeyLive(LogOf(d), key) && WithinBudget(LogOf(d), d.staged + [AddInstallation(key)]) ==>
              AddInstallation(key) in added.nodes[id].device.staged)
        && (Live(LogOf(d), index) && WithinBudget(LogOf(d), d.staged + [Revoke(index)]) ==>
              Revoke(index) in revoked.nodes[id].device.staged)
    ensures
      var (discarded, forgotten) := (Apply(w, DiscardAt(id)), Apply(w, ForgetAt(id)));
      && discarded.nodes[id].device == w.nodes[id].device.(staged := [])
      && forgotten.nodes[id].device == Device(w.nodes[id].device.held, false, None, [], 0)
  {
    Reachable(w, steps);
    assert NodeInv(w.store, w.nodes[id]);
    var d := w.nodes[id].device;
    if Readable(d) && !Stranded(d) {
      StageAddInstallationDecides(d, key);
      StageRevokeDecides(d, index);
    }
  }

  lemma NamesAreStaged(w: World, steps: seq<Step>, id: nat, name: Bytes)
    requires Reached(w, steps) && Idle(w, id) && name != [] && |name| <= 64
    ensures
      var d := w.nodes[id].device;
      var after := Apply(w, StageNameAt(id, name)).nodes[id].device;
      Readable(d) && !Stranded(d) && Profile.LiveDisplayName(LogOf(d)) != Some(name)
      && WithinBudget(LogOf(d), WithoutNames(d.staged) + [SetDisplayName(name)]) ==>
        SetDisplayName(name) in after.staged
  {
    Reachable(w, steps);
    assert NodeInv(w.store, w.nodes[id]);
    var d := w.nodes[id].device;
    if Readable(d) && !Stranded(d) {
      StageSetDisplayNameDecides(d, name);
    }
  }

  lemma JoinsWithNothing(w: World, id: nat)
    requires id !in w.nodes
    ensures
      var after := Apply(w, Join(id));
      && after.nodes.Keys == w.nodes.Keys + {id} && after.store == w.store
      && after.nodes[id].device == Device(None, false, None, [], 0) && after.nodes[id].flight.Grounded?
      && forall other :: other in w.nodes ==> after.nodes[other] == w.nodes[other]
  {
  }

  lemma LocalStaysSound(node: Node, step: Step, store: Log)
    requires Sound(node.device) && TouchesNoStore(step) && !step.UnreadAt? && EncodeError(store).None?
    requires step.StageRevokeAt? ==> step.index < 0x1_0000_0000
    ensures Sound(Local(node, step, store).device)
  {
    if step.StageKeyAt? {
      StagingAKeySustains(node.device, step.key);
    } else if step.StageNameAt? {
      StagingANameSustains(node.device, step.name);
    } else if step.StageRevokeAt? {
      StagingARevocationSustains(node.device, step.index);
    } else if step.RefreshAt? {
      ReadKeeps(node.device, Fetch(store, step.reached));
    } else if step.BeginAt? {
      BeginPublishKeeps(node.device, Fetch(store, step.reached));
    } else {
      ThrowingAwayRestores(node.device);
    }
  }

  lemma SoundIsNotStranded(d: Device)
    requires Admitted(d)
    ensures Stranded(d) <==> !Sound(d)
  {
    assert Valid([]);
  }

  lemma UnreadStep(node: Node)
    requires Admitted(node.device)
    ensures Stranded(UnreadNode(node).device) <==> RevokesAny(node.device.staged)
  {
    UnreadStrands(node.device);
  }

  lemma FinishStaysSound(node: Node, answer: WriteAnswer)
    requires node.flight.InFlight? && Planned(node.device, node.flight.base, node.flight.plan)
    ensures Sound(FinishNode(node, answer).device)
  {
    if answer.Taken? {
      AcknowledgedPublish(node.device, node.flight.base, node.flight.plan);
    }
  }

  /** In every run, a device is stranded by a stop with a revocation staged, and by no other step. */
  lemma OnlyAStopStrands(w: World, steps: seq<Step>, step: Step, id: nat)
    requires Reached(w, steps) && id in w.nodes && !Stranded(w.nodes[id].device)
    ensures id in Apply(w, step).nodes
    ensures Stranded(Apply(w, step).nodes[id].device) <==>
              step == UnreadAt(id) && Idle(w, id) && RevokesAny(w.nodes[id].device.staged)
  {
    Reachable(w, steps);
    var node := w.nodes[id];
    assert NodeInv(w.store, node);
    SoundIsNotStranded(node.device);
    if Enabled(w, step) && !step.Elsewhere? && step.id == id {
      if step.UnreadAt? {
        UnreadStep(node);
      } else if step.WriteAt? {
        var answer := Answer(w.store, node.flight.base + node.flight.plan, step.arrives, step.heard);
        FinishStaysSound(node, answer);
        SoundIsNotStranded(FinishNode(node, answer).device);
      } else {
        LocalStaysSound(node, step, w.store);
        SoundIsNotStranded(Local(node, step, w.store).device);
      }
    }
  }

  /**
   * A write planned on `base` is taken exactly where what the others appended since starts
   * the same plan. The store then holds the plan on `base` and nothing else, and the
   * index answered is the length of `base`.
   */
  lemma CompareAndAppend(w: World, steps: seq<Step>, id: nat, heard: bool)
    requires Reached(w, steps) && id in w.nodes && w.nodes[id].flight.InFlight?
    ensures w.nodes[id].flight.base <= w.store
    ensures
      var node := w.nodes[id];
      var (base, plan) := (node.flight.base, node.flight.plan);
      var after := Apply(w, WriteAt(id, true, heard));
      var answer := Answer(w.store, base + plan, true, heard);
      var result := FinishPublish(node.device, base, plan, answer).1;
      && after.store == (if w.store[|base|..] <= plan then base + plan else w.store)
      && (result.Ok? <==> heard && w.store[|base|..] <= plan)
      && (result.Ok? ==> result.value.firstNewIndex == Some(|base|))
      && (!heard ==> result == Err(StoreFailed(Transport)))
      && (heard && !(w.store[|base|..] <= plan) ==> result == Err(StoreFailed(Diverged)))
  {
    Reachable(w, steps);
    PlannedOnABeginning(w, id);
    ExtendsWhereTheRestDoes(w.nodes[id].flight.base, w.nodes[id].flight.plan, w.store);
  }

  lemma PlannedOnABeginning(w: World, id: nat)
    requires Inv(w) && id in w.nodes && w.nodes[id].flight.InFlight?
    ensures w.nodes[id].flight.base <= w.store
    ensures Planned(w.nodes[id].device, w.nodes[id].flight.base, w.nodes[id].flight.plan)
  {
    assert NodeInv(w.store, w.nodes[id]);
  }

  lemma ExtendsWhereTheRestDoes(base: Log, plan: seq<Entry>, store: Log)
    requires base <= store
    ensures store <= base + plan <==> store[|base|..] <= plan
  {
    assert store == base + store[|base|..];
    if store <= base + plan {
      assert store[|base|..] == (base + plan)[|base|..|store|];
    }
  }

  /** An acknowledged write is in the store, and every edit it was made of holds there. */
  lemma AcknowledgedWriteHolds(w: World, steps: seq<Step>, id: nat) returns (after: World)
    requires Reached(w, steps) && id in w.nodes && w.nodes[id].flight.InFlight?
    requires w.store <= w.nodes[id].flight.base + w.nodes[id].flight.plan
    ensures after == Apply(w, WriteAt(id, true, true))
    ensures id in after.nodes && WrittenAs(w.nodes[id], after.nodes[id], after.store)
  {
    Reachable(w, steps);
    PlannedOnABeginning(w, id);
    WrittenNode(w.nodes[id]);
    after := HeardStep(w, id);
  }

  /** The device shows the store's log, nothing waits, and what was staged is written and holds. */
  predicate WrittenAs(before: Node, after: Node, store: Log) {
    && LogOf(after.device) == store
    && after.device.staged == [] && after.flight.Grounded?
    && after.ledger.written == before.ledger.written + multiset(before.device.staged)
    && forall edit :: edit in before.device.staged ==> Holds(store, edit)
  }

  lemma WrittenNode(node: Node)
    requires node.flight.InFlight? && Planned(node.device, node.flight.base, node.flight.plan)
    ensures WrittenAs(node, FinishNode(node, Taken), node.flight.base + node.flight.plan)
  {
    AcknowledgedPublish(node.device, node.flight.base, node.flight.plan);
  }

  lemma HeardStep(w: World, id: nat) returns (after: World)
    requires id in w.nodes && w.nodes[id].flight.InFlight?
    requires w.store <= w.nodes[id].flight.base + w.nodes[id].flight.plan
    ensures after == Apply(w, WriteAt(id, true, true))
    ensures after.store == w.nodes[id].flight.base + w.nodes[id].flight.plan
    ensures id in after.nodes && after.nodes[id] == FinishNode(w.nodes[id], Taken)
  {
    after := Apply(w, WriteAt(id, true, true));
  }
}
