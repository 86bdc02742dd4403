/** What one handle remembers of its accounts between calls, and how the accounts read it. */
module Sessions {
  import opened Basics
  import opened Addresses
  import opened AccountLog
  import opened Staging
  import opened AccountDevice
  import opened DeviceTheorems
  import opened Codec
  import Publishing

  /** Whether the store ever answered about an account, and what the latest read of it ran into. */
  datatype LastRead = LastRead(at: bool, problem: Option<ReadProblem>)

  /** The resolver's logs, and the handle's maps beside them. */
  datatype Session = Session(
    resolver: map<Address, Log>,
    read: map<Address, LastRead>,
    staged: map<Address, seq<Edit>>,
    dropped: map<Address, nat>)

  function View(s: Session, addr: Address): Device {
    Device(
      if addr in s.resolver then Some(s.resolver[addr]) else None,
      addr in s.read && s.read[addr].at,
      if addr in s.read then s.read[addr].problem else None,
      if addr in s.staged then s.staged[addr] else [],
      if addr in s.dropped then s.dropped[addr] else 0)
  }

  predicate AdmittedAt(s: Session, addr: Address) {
    Admitted(View(s, addr))
  }

  predicate SoundAt(s: Session, addr: Address) {
    Sound(View(s, addr))
  }

  /** No list is kept empty, and no count is kept at zero. */
  predicate Tidy(s: Session) {
    && (forall addr :: addr in s.staged ==> s.staged[addr] != [])
    && (forall addr :: addr in s.dropped ==> s.dropped[addr] > 0)
  }

  /** Every account is sound, or stranded by a stop. */
  ghost predicate Kept(s: Session) {
    Tidy(s) && forall addr: Address :: AdmittedAt(s, addr)
  }

  /** No account is stranded. */
  ghost predicate AllSound(s: Session) {
    forall addr: Address :: SoundAt(s, addr)
  }

  /** One account became `d`, and no other changed. */
  ghost predicate Only(before: Session, after: Session, addr: Address, d: Device) {
    && View(after, addr) == d
    && forall other: Address :: other != addr ==> View(after, other) == View(before, other)
  }

  lemma OnlyKeeps(before: Session, after: Session, addr: Address, d: Device)
    requires Kept(before) && Tidy(after) && Only(before, after, addr, d) && Sustains(View(before, addr), d)
    ensures Kept(after) && (AllSound(before) ==> AllSound(after))
  {
    forall other: Address
      ensures AdmittedAt(after, other) && (AllSound(before) ==> SoundAt(after, other))
    {
      assert AdmittedAt(before, other);
      if AllSound(before) {
        assert SoundAt(before, addr) && SoundAt(before, other);
      }
    }
  }

  lemma AdmittedIn(s: Session, addr: Address)
    requires Kept(s)
    ensures Admitted(View(s, addr))
  {
    assert AdmittedAt(s, addr);
  }

  lemma ReadKeepsSession(before: Session, after: Session, addr: Address, f: Fetched)
    requires Kept(before) && Tidy(after) && Genuine(f)
    requires Only(before, after, addr, ReadStore(View(before, addr), f).0)
    ensures Kept(after) && (AllSound(before) ==> AllSound(after))
    ensures ReadStore(View(before, addr), f).1.None? ==> Sound(View(after, addr))
  {
    AdmittedIn(before, addr);
    ReadKeeps(View(before, addr), f);
    OnlyKeeps(before, after, addr, ReadStore(View(before, addr), f).0);
  }

  lemma KeyStagedInSession(before: Session, after: Session, addr: Address, key: Key)
    requires Kept(before) && Tidy(after)
    requires Only(before, after, addr, StageAddInstallation(View(before, addr), key).0)
    ensures Kept(after) && (AllSound(before) ==> AllSound(after))
  {
    AdmittedIn(before, addr);
    StagingAKeySustains(View(before, addr), key);
    OnlyKeeps(before, after, addr, StageAddInstallation(View(before, addr), key).0);
  }

  lemma NameStagedInSession(before: Session, after: Session, addr: Address, name: Bytes)
    requires Kept(before) && Tidy(after)
    requires Only(before, after, addr, StageSetDisplayName(View(before, addr), name).0)
    ensures Kept(after) && (AllSound(before) ==> AllSound(after))
  {
    AdmittedIn(before, addr);
    StagingANameSustains(View(before, addr), name);
    OnlyKeeps(before, after, addr, StageSetDisplayName(View(before, addr), name).0);
  }

  lemma RevocationStagedInSession(before: Session, after: Session, addr: Address, index: nat)
    requires Kept(before) && Tidy(after) && index < 0x1_0000_0000
    requires Only(before, after, addr, StageRevoke(View(before, addr), index).0)
    ensures Kept(after) && (AllSound(before) ==> AllSound(after))
  {
    AdmittedIn(before, addr);
    StagingARevocationSustains(View(before, addr), index);
    OnlyKeeps(before, after, addr, StageRevoke(View(before, addr), index).0);
  }

  /** Resolving, noting how it ended, and settling are together a read of the store. */
  lemma ReadInSteps(first: Session, resolved: Session, noted: Session, last: Session, addr: Address, f: Fetched)
    requires
      var before := View(first, addr);
      match Resolve(before.held, f)
      case Err(problem) =>
        && resolved == first && last == noted
        && Only(resolved, noted, addr, View(resolved, addr).(problem := Some(problem)))
      case Ok(held) =>
        && Only(first, resolved, addr, before.(held := held))
        && Only(resolved, noted, addr, View(resolved, addr).(answered := true, problem := None))
        && Only(noted, last, addr, Settle(View(noted, addr)))
    ensures Only(first, last, addr, ReadStore(View(first, addr), f).0)
  {
  }

  /** A discard and a forget leave the account sound. */
  lemma ThrowingAwayKeeps(before: Session, after: Session, addr: Address)
    requires Kept(before) && Tidy(after)
    requires
      var d := View(before, addr);
      Only(before, after, addr, Discard(d)) || Only(before, after, addr, Forget(d))
    ensures Kept(after) && (AllSound(before) ==> AllSound(after)) && Sound(View(after, addr))
  {
    AdmittedIn(before, addr);
    ThrowingAwayRestores(View(before, addr));
    OnlyKeeps(before, after, addr, View(after, addr));
  }

  lemma UnreadKeeps(before: Session, after: Session, addr: Address)
    requires Kept(before) && Tidy(after) && Only(before, after, addr, Unread(View(before, addr)))
    ensures Kept(after)
    ensures Stranded(View(after, addr)) <==> RevokesAny(View(before, addr).staged)
    ensures AllSound(before) ==> (AllSound(after) <==> !RevokesAny(View(before, addr).staged))
  {
    AdmittedIn(before, addr);
    UnreadStrands(View(before, addr));
    forall other: Address
      ensures AdmittedAt(after, other)
      ensures AllSound(before) && !RevokesAny(View(before, addr).staged) ==> SoundAt(after, other)
    {
      assert AdmittedAt(before, other);
      if AllSound(before) {
        assert SoundAt(before, other);
      }
    }
    assert RevokesAny(View(before, addr).staged) ==> !SoundAt(after, addr);
  }

  /** An acknowledged publish leaves the account sound, and its payload is one the store can be sent. */
  lemma FinishIsSound(d: Device, base: Log, plan: seq<Entry>)
    requires Planned(d, base, plan)
    ensures Sound(FinishPublish(d, base, plan, Taken).0)
    ensures PushAll(base, plan) == Ok(base + plan) && base + plan != []
    ensures d.held.Some? ==> d.held.value <= base + plan
  {
    AcknowledgedPublish(d, base, plan);
    PlannedLog(d, base, plan);
    Publishing.PlanPushes(base, d.staged);
  }

  lemma ResolveExtension(held: Option<Log>, log: Log)
    requires held.Some? ==> held.value <= log
    ensures Resolve(held, Served(log)) == Ok(Some(log))
  {
  }

  /** The read-back gets the log the publish wrote, whatever the store would have answered. */
  lemma ReadBackAdopts(addr: Address, d: Device, log: Log)
    requires EncodeError(log).None? && log != [] && (d.held.Some? ==> d.held.value <= log)
    ensures Resolve(d.held, Checked(addr, SignedLog(addr, Encode(log).value))) == Ok(Some(log))
  {
    ResolveExtension(d.held, log);
    assert Serve(log) == Served(log);
    ServedIsChecked(addr, log);
  }

  /** Dropping the list, adopting the log written, and counting are together the end of a publish. */
  lemma WriteInSteps(first: Session, unstaged: Session, resolved: Session, last: Session,
                     addr: Address, base: Log, plan: seq<Entry>)
    requires Only(first, unstaged, addr, View(first, addr).(staged := []))
    requires Only(unstaged, resolved, addr, View(unstaged, addr).(held := Some(base + plan)))
    requires Only(resolved, last, addr, View(resolved, addr).(dropped := 0))
    ensures Only(first, last, addr, FinishPublish(View(first, addr), base, plan, Taken).0)
  {
  }

  lemma WriteKeepsSession(first: Session, last: Session, addr: Address, base: Log, plan: seq<Entry>)
    requires Kept(first) && Tidy(last) && Planned(View(first, addr), base, plan)
    requires Only(first, last, addr, FinishPublish(View(first, addr), base, plan, Taken).0)
    ensures Kept(last) && (AllSound(first) ==> AllSound(last))
  {
    FinishIsSound(View(first, addr), base, plan);
    OnlyKeeps(first, last, addr, FinishPublish(View(first, addr), base, plan, Taken).0);
  }

  /** What a publish comes to, told from what its read left. */
  lemma PublishInSteps(s: Session, addr: Address, f: Fetched, answer: WriteAnswer)
    requires Kept(s) && addr in s.staged && Genuine(f)
    ensures
      var before := View(s, addr);
      var (read, problem) := ReadStore(before, f);
      var (begun, start) := BeginPublish(before, f);
      var published := Publish(before, f, answer);
      && Sustains(before, begun)
      && (problem.Some? ==> published == (read, Err(ReadFailed(problem.value))) && start.Stopped?)
      && (problem.None? && read.staged == [] ==>
            begun == read.(dropped := 0) && start.AlreadyHeld? &&
            published == (begun, Ok(Published(None, read.dropped))))
      && (problem.None? && read.staged != [] && Unfit(read, read.staged).Some? ==>
            published == (read, Err(Unfit(read, read.staged).value)) && start.Stopped?)
      && (problem.None? && read.staged != [] && Unfit(read, read.staged).None? ==>
            Planned(read, LogOf(read), Plan(read.staged)) && start == Writes(LogOf(read), Plan(read.staged)) &&
            published == FinishPublish(read, LogOf(read), Plan(read.staged), answer))
  {
    AdmittedIn(s, addr);
    BeginPublishKeeps(View(s, addr), f);
  }
}
