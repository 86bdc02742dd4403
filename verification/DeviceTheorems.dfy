/** What every call keeps about one account, and what the calls achieve together. */
module DeviceTheorems {
  import opened Basics
  import opened Addresses
  import opened AccountLog
  import opened Codec
  import opened Profile
  import opened Staging
  import opened Publishing
  import opened LogRows
  import opened AccountDevice

  /** Holds of every list taken and every log held, whatever the list stands on. */
  predicate Listed(d: Device) {
    && Distinct(d.staged)
    && (forall edit :: edit in d.staged ==> Authored(edit))
    && (d.held.Some? ==> EncodeError(d.held.value).None?)
  }

  /** What is staged stands on the log shown. */
  predicate Sound(d: Device) {
    Listed(d) && (Readable(d) ==> WellStaged(LogOf(d), d.staged))
  }

  /** What was read was dropped and what was staged on it was not: the list stands on a log no longer shown. */
  predicate Stranded(d: Device) {
    && Listed(d) && !d.answered && d.held.Some?
    && (Valid(d.held.value) ==> WellStaged(d.held.value, d.staged))
    && !WellStaged([], d.staged)
  }

  /** Holds of every account of every handle between calls. */
  predicate Admitted(d: Device) {
    Sound(d) || Stranded(d)
  }

  /** A call on `d` that leaves `after` strands nothing. */
  predicate Sustains(d: Device, after: Device) {
    Admitted(after) && (Sound(d) ==> Sound(after))
  }

  /** Whether a log with the update on its end is within the format's cap. */
  predicate WithinBudget(log: Log, staged: seq<Edit>) {
    PayloadBytes(log + Plan(staged)) <= MAX_PAYLOAD_BYTES
  }

  // ---------- Staging ----------

  /** On a readable log the byte budget is the only thing left that can refuse a well-staged list. */
  lemma OnlyTheBudgetRefuses(d: Device, staged: seq<Edit>)
    requires Readable(d) && WellStaged(LogOf(d), staged)
    ensures Unfit(d, staged) == if WithinBudget(LogOf(d), staged) then None else Some(OverBudget)
  {
    PlanPushes(LogOf(d), staged);
    ValidIsEncodable(LogOf(d) + Plan(staged));
  }

  /** What one call to stage comes to: refused with nothing changed, or taken and within the budget. */
  predicate StagedAs(d: Device, staged: seq<Edit>, after: Device, error: Option<EditError>) {
    && (error == None || error == Some(OverBudget))
    && (error == None <==> WithinBudget(LogOf(d), staged))
    && after == (if error == None then d.(staged := staged) else d)
    && Sound(after)
    && (error == None ==> LogBytes(d) + TotalBytes(Pending(after)) <= MAX_PAYLOAD_BYTES)
  }

  lemma RestageDecides(d: Device, staged: seq<Edit>)
    requires Sound(d) && Readable(d) && WellStaged(LogOf(d), staged)
    ensures StagedAs(d, staged, Restage(d, staged).0, Restage(d, staged).1)
  {
    OnlyTheBudgetRefuses(d, staged);
    PendingRowsAccountForTheUpdate(LogOf(d), staged);
  }

  lemma WellStagedAppend(log: Log, staged: seq<Edit>, edit: Edit)
    requires WellStaged(log, staged) && Authored(edit) && Keeps(log, edit)
    requires forall other :: other in staged ==> Together(other, edit)
    ensures WellStaged(log, staged + [edit])
  {
  }

  lemma StageAddInstallationDecides(d: Device, key: Key)
    requires Sound(d)
    ensures
      var (after, error) := StageAddInstallation(d, key);
      if !Readable(d) then after == d && error == Some(Unreadable)
      else if KeyLive(LogOf(d), key) then after == d && error == Some(InstallationLive)
      else if AddInstallation(key) in d.staged then after == d && error == Some(AlreadyStaged)
      else StagedAs(d, d.staged + [AddInstallation(key)], after, error)
  {
    if Readable(d) && !KeyLive(LogOf(d), key) && AddInstallation(key) !in d.staged {
      WellStagedAppend(LogOf(d), d.staged, AddInstallation(key));
      RestageDecides(d, d.staged + [AddInstallation(key)]);
    }
  }

  lemma StageRevokeDecides(d: Device, index: nat)
    requires Sound(d) && index < 0x1_0000_0000
    ensures
      var (after, error) := StageRevoke(d, index);
      if !Readable(d) then after == d && error == Some(Unreadable)
      else if !Live(LogOf(d), index) then after == d && error == Some(NotRevocable(index))
      else if Revoke(index) in d.staged then after == d && error == Some(AlreadyStaged)
      else StagedAs(d, d.staged + [Revoke(index)], after, error)
  {
    if Readable(d) && Live(LogOf(d), index) && Revoke(index) !in d.staged {
      WellStagedAppend(LogOf(d), d.staged, Revoke(index));
      RestageDecides(d, d.staged + [Revoke(index)]);
    }
  }

  lemma {:induction false} WithoutNamesIn(staged: seq<Edit>, edit: Edit)
    ensures edit in WithoutNames(staged) <==> edit in staged && !edit.SetDisplayName?
  {
    if staged != [] {
      var n := |staged| - 1;
      WithoutNamesIn(staged[..n], edit);
      assert staged == staged[..n] + [staged[n]];
    }
  }

  lemma {:induction false} WithoutNamesDistinct(staged: seq<Edit>)
    requires Distinct(staged)
    ensures Distinct(WithoutNames(staged))
    ensures |WithoutNames(staged)| <= |staged|
    ensures |WithoutNames(staged)| == |staged| <==> !Names(staged)
  {
    if staged != [] {
      var n := |staged| - 1;
      var before := WithoutNames(staged[..n]);
      WithoutNamesDistinct(staged[..n]);
      assert staged == staged[..n] + [staged[n]];
      forall i | 0 <= i < |before|
        ensures Together(before[i], staged[n])
      {
        WithoutNamesIn(staged[..n], before[i]);
      }
    }
  }

  /** One name at most waits: another replaces it, and the one in force takes it away. */
  lemma StageSetDisplayNameDecides(d: Device, name: Bytes)
    requires Sound(d)
    ensures
      var (after, error) := StageSetDisplayName(d, name);
      var others := WithoutNames(d.staged);
      if name == [] then after == d && error == Some(EmptyDisplayName)
      else if |name| > 64 then after == d && error == Some(DisplayNameTooLong(|name|))
      else if !Readable(d) then after == d && error == Some(Unreadable)
      else if LiveDisplayName(LogOf(d)) != Some(name) then
        StagedAs(d, others + [SetDisplayName(name)], after, error)
      else if !Names(d.staged) then after == d && error == Some(NameUnchanged)
      else StagedAs(d, others, after, error)
  {
    var others := WithoutNames(d.staged);
    WithoutNamesDistinct(d.staged);
    forall edit
      ensures edit in others <==> edit in d.staged && !edit.SetDisplayName?
    {
      WithoutNamesIn(d.staged, edit);
    }
    if NameError(name).None? && Readable(d) {
      assert WellStaged(LogOf(d), others);
      RestageDecides(d, others);
      if LiveDisplayName(LogOf(d)) != Some(name) {
        WellStagedAppend(LogOf(d), others, SetDisplayName(name));
        RestageDecides(d, others + [SetDisplayName(name)]);
      }
    }
  }

  // ---------- Reading ----------

  lemma SettleSound(d: Device)
    requires Listed(d) && (Record(d).None? ==> WellStaged([], d.staged))
    ensures Sound(Settle(d))
    ensures Settle(d).held == d.held && Settle(d).answered == d.answered && Settle(d).problem == d.problem
    ensures |d.staged| + d.dropped == |Settle(d).staged| + Settle(d).dropped
    ensures forall edit :: edit in Settle(d).staged ==> edit in d.staged
  {
    if Record(d).Some? && Readable(d) {
      SettledWell(LogOf(d), d.staged);
      SettledShrinks(LogOf(d), d.staged);
      forall edit | edit in Settle(d).staged
        ensures edit in d.staged
      {
        SettledIn(LogOf(d), d.staged, edit);
      }
    }
  }

  /**
   * A read that fails changes nothing but why it failed. One that lands leaves the account
   * sound even where it was stranded, puts up the log served, which extends the log held,
   * and loses no count of what it drops.
   */
  lemma ReadKeeps(d: Device, f: Fetched)
    requires Admitted(d) && Genuine(f)
    ensures
      var (after, problem) := ReadStore(d, f);
      && Sustains(d, after)
      && (problem.Some? ==> after == d.(problem := problem))
      && (problem.None? ==>
            && Sound(after) && after.answered && after.problem.None?
            && (d.held.Some? ==> after.held.Some? && d.held.value <= after.held.value)
            && LogOf(d) <= LogOf(after)
            && (after.held.Some? ==> f == Served(after.held.value))
            && |d.staged| + d.dropped == |after.staged| + after.dropped
            && (after.held.Some? && Readable(after) ==> after.staged == Settled(LogOf(after), d.staged))
            && (after.held.None? || !Readable(after) ==> after.staged == d.staged))
  {
    match Resolve(d.held, f)
    case Err(_) =>
    case Ok(held) =>
      var read := d.(held := held, answered := true, problem := None);
      assert Record(read).None? ==> Sound(d) && LogOf(d) == [] && Valid([]);
      SettleSound(read);
  }

  // ---------- A stranded account ----------

  /** Pushed on no log at all, a list with a revocation is refused at the first one. */
  lemma RevocationRefused(staged: seq<Edit>)
    requires RevokesOf(staged) != []
    ensures RevokesOf(staged)[0].Revoke?
    ensures PushAll([], Plan(staged)) == Err(NotLive(RevokesOf(staged)[0].index))
  {
    PartsAreOfAKind(staged);
    assert RevokesOf(staged)[0] in RevokesOf(staged);
    assert Plan(staged)[0] == EntryOf(RevokesOf(staged)[0]);
  }

  lemma {:induction false} NamesAreNoRevocations(staged: seq<Edit>)
    ensures RevokesOf(WithoutNames(staged)) == RevokesOf(staged)
  {
    if staged != [] {
      var before, last := WithoutNames(staged[..|staged| - 1]), staged[|staged| - 1];
      NamesAreNoRevocations(staged[..|staged| - 1]);
      RevokesOfAppend(before, last);
      if last.SetDisplayName? {
        assert WithoutNames(staged) == before && RevokesOf(before) + [] == RevokesOf(before);
      } else {
        assert WithoutNames(staged) == before + [last];
      }
    }
  }

  lemma RevokesOfAppend(staged: seq<Edit>, edit: Edit)
    ensures RevokesOf(staged + [edit]) == RevokesOf(staged) + if edit.Revoke? then [edit] else []
  {
    assert (staged + [edit])[..|staged|] == staged;
  }

  /** What strands an account is a revocation: nothing is live on no log. */
  lemma StrandedRevokes(d: Device)
    requires Stranded(d)
    ensures RevokesOf(d.staged) != [] && RevokesOf(d.staged)[0].Revoke?
    ensures LogOf(d) == [] && Readable(d)
  {
    PartsAreOfAKind(d.staged);
    var edit :| edit in d.staged && !Keeps([], edit);
    assert edit in RevokesOf(d.staged);
    assert RevokesOf(d.staged)[0] in RevokesOf(d.staged);
  }

  /**
   * Until it is read, discarded or forgotten, a stranded account takes no edit: each one is
   * refused, by the log and not by the budget where nothing else refuses it, and none changes it.
   */
  lemma StrandedRefuses(d: Device, key: Key, name: Bytes, index: nat)
    requires Stranded(d)
    ensures RevokesOf(d.staged) != [] && RevokesOf(d.staged)[0].Revoke?
    ensures
      var refused := Some(LogRefused(NotLive(RevokesOf(d.staged)[0].index)));
      && StageAddInstallation(d, key) ==
           (d, if AddInstallation(key) in d.staged then Some(AlreadyStaged) else refused)
      && StageSetDisplayName(d, name) == (d, if NameError(name).Some? then NameError(name) else refused)
      && StageRevoke(d, index) == (d, Some(NotRevocable(index)))
  {
    StrandedRevokes(d);
    var others := WithoutNames(d.staged);
    NamesAreNoRevocations(d.staged);
    RevokesOfAppend(d.staged, AddInstallation(key));
    RevokesOfAppend(others, SetDisplayName(name));
    RevocationRefused(d.staged + [AddInstallation(key)]);
    RevocationRefused(others + [SetDisplayName(name)]);
  }

  /** Staging leaves an account as sound as it was. */
  lemma StagingAKeySustains(d: Device, key: Key)
    requires Admitted(d)
    ensures Sustains(d, StageAddInstallation(d, key).0)
  {
    if Sound(d) {
      StageAddInstallationDecides(d, key);
    } else {
      StrandedRefuses(d, key, [], 0);
    }
  }

  lemma StagingANameSustains(d: Device, name: Bytes)
    requires Admitted(d)
    ensures Sustains(d, StageSetDisplayName(d, name).0)
  {
    if Sound(d) {
      StageSetDisplayNameDecides(d, name);
    } else {
      StrandedRefuses(d, seq(KEY_BYTES, _ => 0), name, 0);
    }
  }

  lemma StagingARevocationSustains(d: Device, index: nat)
    requires Admitted(d) && index < 0x1_0000_0000
    ensures Sustains(d, StageRevoke(d, index).0)
  {
    if Sound(d) {
      StageRevokeDecides(d, index);
    } else {
      StrandedRefuses(d, seq(KEY_BYTES, _ => 0), [], index);
    }
  }

  /** A list stands on no log at all exactly where it revokes nothing: nothing else needs an entry. */
  lemma StandsOnNothing(staged: seq<Edit>)
    requires Distinct(staged) && forall edit :: edit in staged ==> Authored(edit)
    ensures WellStaged([], staged) <==> !RevokesAny(staged)
  {
    LastNameInForce([]);
    forall edit | edit in staged
      ensures Keeps([], edit) <==> !edit.Revoke?
    {
    }
  }

  /** Dropping what was read strands an account exactly where a revocation is staged. */
  lemma UnreadStrands(d: Device)
    requires Admitted(d)
    ensures Admitted(Unread(d))
    ensures Stranded(Unread(d)) <==> RevokesAny(d.staged)
    ensures Sound(Unread(d)) <==> !RevokesAny(d.staged)
  {
    StandsOnNothing(d.staged);
    assert Valid([]);
  }

  /** A discard and a forget leave any account sound. */
  lemma ThrowingAwayRestores(d: Device)
    requires Admitted(d)
    ensures Sound(Discard(d)) && Sound(Forget(d))
  {
  }

  // ---------- What a store answers ----------

  /** What a store that serves the log it holds answers. */
  function Serve(store: Log): Fetched {
    if store == [] then NothingPublished else Served(store)
  }

  lemma CheckedIs(addr: Address, signer: Address, payload: Bytes, log: Log)
    requires Decode(payload) == Some(log)
    ensures Checked(addr, SignedLog(signer, payload)) == if signer == addr then Served(log) else Unusable
  {
  }

  /** That answer is what checking the signed payload of the log comes to. */
  lemma ServedIsChecked(addr: Address, store: Log)
    requires EncodeError(store).None? && store != []
    ensures Checked(addr, SignedLog(addr, Encode(store).value)) == Serve(store)
  {
    DecodeOfEncode(store);
    CheckedIs(addr, addr, Encode(store).value, store);
  }

  /** A log the address did not sign is never put up, whatever it says. */
  lemma OnlySignedLogsAreServed(addr: Address, artifact: Artifact)
    requires Checked(addr, artifact).Served?
    ensures artifact == SignedLog(addr, Encode(Checked(addr, artifact).log).value)
  {
    EncodeOfDecode(artifact.payload);
  }

  /** Whether the answer is a log the address signed, of entries that encode to its payload. */
  ghost predicate Verifies(addr: Address, artifact: Artifact, log: Log) {
    artifact.SignedLog? && artifact.signer == addr && Encode(log) == Ok(artifact.payload)
  }

  lemma CheckedVerifies(addr: Address, artifact: Artifact, log: Log)
    ensures Checked(addr, artifact) == Served(log) <==> Verifies(addr, artifact, log)
  {
    if artifact.SignedLog? {
      DecodeInvertsEncode(artifact.payload, log);
    }
  }

  /** What an answer is taken as. */
  lemma CheckedKind(addr: Address, artifact: Artifact)
    ensures Checked(addr, artifact) == NoAnswer <==> artifact.Silence?
    ensures Checked(addr, artifact) == NothingPublished <==> artifact.NoLog?
    ensures Checked(addr, artifact) == Unusable <==>
              artifact.SignedLog? && forall log :: !Verifies(addr, artifact, log)
  {
    forall log
      ensures Checked(addr, artifact) == Served(log) <==> Verifies(addr, artifact, log)
    {
      CheckedVerifies(addr, artifact, log);
    }
    if Checked(addr, artifact).Served? {
      assert Verifies(addr, artifact, Checked(addr, artifact).log);
    }
  }

  /** Which problem a read meets, told from what the answer was taken as. */
  lemma ProblemOf(d: Device, f: Fetched)
    ensures
      var problem := ReadStore(d, f).1;
      && (problem == Some(Unanswered) <==> f == NoAnswer)
      && (problem == Some(Unverified) <==> f == Unusable)
      && (problem == Some(Forked) <==>
            d.held.Some? && (f == NothingPublished || (f.Served? && !(d.held.value <= f.log))))
  {
  }

  /**
   * What each failed read is told as: no answer, an answer that is no log the address signed,
   * or another history than the one held. Any other answer lands.
   */
  lemma WhyAReadFails(d: Device, addr: Address, artifact: Artifact)
    ensures
      var problem := ReadStore(d, Checked(addr, artifact)).1;
      && (problem == Some(Unanswered) <==> artifact.Silence?)
      && (problem == Some(Unverified) <==> artifact.SignedLog? && forall log :: !Verifies(addr, artifact, log))
      && (problem == Some(Forked) <==>
            d.held.Some? && (artifact.NoLog? ||
                             exists log :: Verifies(addr, artifact, log) && !(d.held.value <= log)))
  {
    var f := Checked(addr, artifact);
    CheckedKind(addr, artifact);
    ProblemOf(d, f);
    if f.Served? {
      CheckedVerifies(addr, artifact, f.log);
    }
    forall log | Verifies(addr, artifact, log)
      ensures f == Served(log)
    {
      CheckedVerifies(addr, artifact, log);
    }
  }

  // ---------- Publishing ----------

  /** What a publish carries from its read to its write. */
  predicate Planned(d: Device, base: Log, plan: seq<Entry>) {
    && Sound(d) && d.answered && d.staged != []
    && base == LogOf(d) && plan == Plan(d.staged)
    && Valid(base) && WellStaged(base, d.staged)
    && EncodeError(base + plan).None?
  }

  lemma BeginPublishKeeps(d: Device, f: Fetched)
    requires Admitted(d) && Genuine(f)
    ensures
      var (after, start) := BeginPublish(d, f);
      && Sustains(d, after)
      && (d.staged != [] && ReadStore(d, f).1.None? ==> Sound(after))
      && (d.held.Some? ==> after.held.Some? && d.held.value <= after.held.value)
      && (start.Writes? ==> Planned(after, start.base, start.plan))
      && (start.AlreadyHeld? ==>
            after.staged == [] && after.dropped == 0 && start.dropped == |d.staged| + d.dropped >= 1)
      && (!start.AlreadyHeld? ==> |d.staged| + d.dropped == |after.staged| + after.dropped)
  {
    ReadKeeps(d, f);
    if d.staged != [] {
      var (read, problem) := ReadStore(d, f);
      if problem.None? && read.staged != [] && Readable(read) {
        OnlyTheBudgetRefuses(read, read.staged);
        PlanPushes(LogOf(read), read.staged);
      }
    }
  }

  /** Past its read, a publish is stopped by an unreadable log or by the budget, and by nothing else. */
  lemma WhatStopsAPublish(d: Device, f: Fetched)
    requires Admitted(d) && Genuine(f) && d.staged != []
    ensures
      var (read, problem) := ReadStore(d, f);
      var start := BeginPublish(d, f).1;
      start ==
        match problem
        case Some(p) => Stopped(ReadFailed(p))
        case None =>
          if read.staged == [] then AlreadyHeld(read.dropped)
          else if !Readable(read) then Stopped(Unreadable)
          else if !WithinBudget(LogOf(read), read.staged) then Stopped(OverBudget)
          else Writes(LogOf(read), Plan(read.staged))
  {
    ReadKeeps(d, f);
    var (read, problem) := ReadStore(d, f);
    if problem.None? && Readable(read) {
      OnlyTheBudgetRefuses(read, read.staged);
    }
  }

  lemma WrittenLog(d: Device, base: Log, plan: seq<Entry>)
    requires Planned(d, base, plan)
    ensures
      var (after, result) := FinishPublish(d, base, plan, Taken);
      && after.staged == [] && after.dropped == 0 && Sound(after)
      && result == Ok(Published(Some(|LogOf(d)|), d.dropped))
      && LogOf(after) == LogOf(d) + Plan(d.staged) && Valid(LogOf(after))
      && LogBytes(after) <= MAX_PAYLOAD_BYTES
  {
    PlanPushes(base, d.staged);
  }

  /**
   * An acknowledged write: the log shown is the one planned on with the plan on its end,
   * the new rows are the pending ones, the payload grew by exactly their bytes and is
   * within the cap, every edit written holds, and none is left waiting.
   */
  lemma AcknowledgedPublish(d: Device, base: Log, plan: seq<Entry>)
    requires Planned(d, base, plan)
    ensures
      var (after, result) := FinishPublish(d, base, plan, Taken);
      && Sound(after) && after.staged == [] && after.dropped == 0
      && result == Ok(Published(Some(|LogOf(d)|), d.dropped))
      && LogOf(after) == LogOf(d) + Plan(d.staged) && Valid(LogOf(after))
      && LogRows.Entries(LogOf(after))[|LogOf(d)|..] == Pending(d)
      && LogBytes(after) == LogBytes(d) + TotalBytes(Pending(d)) <= MAX_PAYLOAD_BYTES
      && forall edit :: edit in d.staged ==> Holds(LogOf(after), edit)
  {
    WrittenLog(d, base, plan);
    SettledOnceWritten(LogOf(d), d.staged);
    PreviewIsTheOutcome(LogOf(d), d.staged);
    PendingRowsAccountForTheUpdate(LogOf(d), d.staged);
  }

  lemma WritesOnWhatWasRead(d: Device, f: Fetched)
    requires BeginPublish(d, f).1.Writes?
    ensures ReadStore(d, f) == (BeginPublish(d, f).0, None)
    ensures BeginPublish(d, f).1.base == LogOf(BeginPublish(d, f).0) && Readable(BeginPublish(d, f).0)
  {
  }

  /** What a publish that goes on to write left staged when it read. */
  lemma WritesWhatWasLeft(d: Device, f: Fetched)
    requires Admitted(d) && Genuine(f) && BeginPublish(d, f).1.Writes?
    ensures
      var (read, start) := BeginPublish(d, f);
      && LogOf(d) <= start.base == LogOf(read)
      && (read.held.Some? ==> read.staged == Settled(start.base, d.staged))
      && (read.held.None? ==> read.staged == d.staged)
  {
    WritesOnWhatWasRead(d, f);
    ReadKeeps(d, f);
  }

  lemma SameLogSettlesNothing(d: Device, f: Fetched)
    requires Sound(d) && Genuine(f)
    requires BeginPublish(d, f).1.Writes? && BeginPublish(d, f).1.base == LogOf(d)
    ensures
      var read := BeginPublish(d, f).0;
      && read.staged == d.staged && read.dropped == d.dropped && LogOf(read) == LogOf(d)
  {
    BeginPublishKeeps(d, f);
    WritesWhatWasLeft(d, f);
    SettledFixed(LogOf(d), d.staged);
  }

  /** Publishing on the log shown settles nothing away, so what was pending is what is written. */
  lemma PendingIsWritten(d: Device, f: Fetched)
    requires Sound(d) && Genuine(f)
    requires BeginPublish(d, f).1.Writes? && BeginPublish(d, f).1.base == LogOf(d)
    ensures
      var (read, start) := BeginPublish(d, f);
      var after := FinishPublish(read, start.base, start.plan, Taken).0;
      LogRows.Entries(LogOf(after))[|LogOf(d)|..] == Pending(d)
  {
    var (read, start) := BeginPublish(d, f);
    SameLogSettlesNothing(d, f);
    BeginPublishKeeps(d, f);
    AcknowledgedPublish(read, start.base, start.plan);
  }

  /** The log the list stands on: the one shown, or the one held where what was read was dropped. */
  function StandsOn(d: Device): Log {
    if Sound(d) || d.held.None? then LogOf(d) else d.held.value
  }

  lemma StandsOnABeginning(d: Device, f: Fetched)
    requires Admitted(d) && Genuine(f) && BeginPublish(d, f).1.Writes?
    ensures StandsOn(d) <= BeginPublish(d, f).1.base && Valid(BeginPublish(d, f).1.base)
    ensures Valid(StandsOn(d)) && WellStaged(StandsOn(d), d.staged)
  {
    WritesOnWhatWasRead(d, f);
    StandsOnARead(d, f);
  }

  /**
   * Every edit staged before a publish, stranded or not, holds once the publish is
   * acknowledged, but for a name as told there.
   */
  lemma PublishKeepsIntent(d: Device, f: Fetched, edit: Edit)
    requires Admitted(d) && Genuine(f) && edit in d.staged
    requires BeginPublish(d, f).1.Writes?
    ensures
      var (read, start) := BeginPublish(d, f);
      Holds(LogOf(FinishPublish(read, start.base, start.plan, Taken).0), edit) <==>
        !edit.SetDisplayName? || edit in read.staged || NameLeft(start.base, read.staged, edit.name)
  {
    var (read, start) := BeginPublish(d, f);
    BeginPublishKeeps(d, f);
    WritesWhatWasLeft(d, f);
    AcknowledgedPublish(read, start.base, start.plan);
    if edit !in read.staged {
      StandsOnABeginning(d, f);
      SettlingKeepsIntent(StandsOn(d), start.base, d.staged, edit);
      SettledIn(start.base, d.staged, edit);
    }
  }

  /** A read of a log in which every staged edit holds. */
  lemma ReadOfHeldEdits(d: Device, log: Log)
    requires EncodeError(log).None? && Valid(log) && log != [] && Settled(log, d.staged) == []
    requires d.held.Some? ==> d.held.value <= log
    ensures ReadStore(d, Serve(log)) ==
              (Device(Some(log), true, None, [], |d.staged| + d.dropped), None)
  {
  }

  lemma PlannedLog(d: Device, base: Log, plan: seq<Entry>)
    requires Planned(d, base, plan)
    ensures Valid(base + plan) && base + plan != [] && Settled(base + plan, d.staged) == []
    ensures d.held.Some? ==> d.held.value <= base + plan
    ensures forall edit :: edit in d.staged ==> Holds(base + plan, edit)
  {
    PlanEffect(base, d.staged, 0);
    PlanPushes(base, d.staged);
    SettledOnceWritten(base, d.staged);
  }

  /**
   * Once the store holds every edit staged, whatever asks it next writes nothing, leaves
   * nothing waiting, and counts each edit once.
   */
  predicate CountsEach(d: Device, log: Log) {
    var read, counted := Device(Some(log), true, None, [], 0), |d.staged| + d.dropped;
    && BeginPublish(d, Serve(log)) == (read, AlreadyHeld(counted))
    && Publish(d, Serve(log), Taken) == (read, Ok(Published(None, counted)))
    && Refresh(d, Serve(log)) == (read, Ok(counted))
  }

  lemma CountsOnceRead(d: Device, log: Log)
    requires d.staged != []
    requires ReadStore(d, Serve(log)) == (Device(Some(log), true, None, [], |d.staged| + d.dropped), None)
    ensures CountsEach(d, log)
  {
  }

  lemma CallsOnHeldEdits(d: Device, log: Log)
    requires EncodeError(log).None? && Valid(log) && log != [] && Settled(log, d.staged) == []
    requires d.held.Some? ==> d.held.value <= log
    requires d.staged != []
    ensures CountsEach(d, log)
  {
    ReadOfHeldEdits(d, log);
    CountsOnceRead(d, log);
  }

  /**
   * A write that landed and whose answer was lost: the next read drops every edit it
   * wrote, a retried publish writes nothing, and either one counts each of them once.
   */
  lemma LostAnswer(d: Device, base: Log, plan: seq<Entry>, why: StoreError)
    requires Planned(d, base, plan)
    ensures FinishPublish(d, base, plan, NotTaken(why)) == (d, Err(StoreFailed(why)))
    ensures CountsEach(d, base + plan)
    ensures forall edit :: edit in d.staged ==> Holds(base + plan, edit)
  {
    PlannedLog(d, base, plan);
    CallsOnHeldEdits(d, base + plan);
  }

  /** An edit a read drops is one the log it read holds. */
  lemma DroppedHolds(d: Device, f: Fetched, edit: Edit)
    requires Admitted(d) && Genuine(f)
    requires edit in d.staged && edit !in ReadStore(d, f).0.staged
    ensures Holds(LogOf(ReadStore(d, f).0), edit)
  {
    ReadKeeps(d, f);
    var read := LogOf(ReadStore(d, f).0);
    SettledIn(read, d.staged, edit);
    StandsOnARead(d, f);
    if edit.Revoke? {
      assert Keeps(StandsOn(d), edit);
    }
  }

  /** The list stands on a beginning of any readable log that a read puts up. */
  lemma StandsOnARead(d: Device, f: Fetched)
    requires Admitted(d) && Genuine(f) && ReadStore(d, f).1.None? && Readable(ReadStore(d, f).0)
    ensures StandsOn(d) <= LogOf(ReadStore(d, f).0)
    ensures Valid(StandsOn(d)) && WellStaged(StandsOn(d), d.staged)
  {
    ReadKeeps(d, f);
    var read := LogOf(ReadStore(d, f).0);
    ValidPrefix(read, |StandsOn(d)|);
    assert read[..|StandsOn(d)|] == StandsOn(d);
  }

  /** Reading a log of this build's after a lost answer: the list left, the count, and what each edit came to. */
  predicate ReadSince(d: Device, written: Log, store: Log) {
    var (read, problem) := ReadStore(d, Serve(store));
    && problem == None && LogOf(read) == store
    && read.staged == Settled(store, d.staged)
    && |read.staged| + read.dropped == |d.staged| + d.dropped
    && (forall edit :: edit in read.staged ==> !edit.Revoke? && UndoneSince(written, store, edit))
    && (forall edit :: edit in d.staged && edit !in read.staged ==> Holds(store, edit))
  }

  lemma ReadLands(d: Device, store: Log)
    requires EncodeError(store).None? && Valid(store) && store != [] && (d.held.Some? ==> d.held.value <= store)
    ensures
      var (read, problem) := ReadStore(d, Serve(store));
      problem == None && LogOf(read) == store && read.staged == Settled(store, d.staged)
  {
  }

  lemma ReadCounts(d: Device, f: Fetched)
    requires Admitted(d) && Genuine(f)
    ensures
      var read := ReadStore(d, f).0;
      |read.staged| + read.dropped == |d.staged| + d.dropped
  {
    ReadKeeps(d, f);
  }

  /** The same where others have written since: what is left is only what they undid. */
  lemma LostAnswerThenOthers(d: Device, base: Log, plan: seq<Entry>, store: Log)
    requires Planned(d, base, plan) && base + plan <= store && Valid(store) && EncodeError(store).None?
    ensures ReadSince(d, base + plan, store)
  {
    PlannedLog(d, base, plan);
    ReadLands(d, store);
    ReadCounts(d, Serve(store));
    SettledAfterOthers(base, d.staged, store);
    forall edit | edit in d.staged && edit !in Settled(store, d.staged)
      ensures Holds(store, edit)
    {
      DroppedHolds(d, Serve(store), edit);
    }
  }

  /**
   * A retried publish there does as a new one would: it writes exactly the edits others undid,
   * each of the others having been counted, or is stopped by the budget, or finds nothing left.
   */
  predicate RetriedSince(d: Device, written: Log, store: Log) {
    var (after, start) := BeginPublish(d, Serve(store));
    var left := Settled(store, d.staged);
    && LogOf(after) == store && after.staged == left
    && (forall edit :: edit in left ==> !edit.Revoke? && UndoneSince(written, store, edit))
    && (forall edit :: edit in d.staged && edit !in left ==> Holds(store, edit))
    && start == (if left == [] then AlreadyHeld(|d.staged| + d.dropped)
                 else if !WithinBudget(store, left) then Stopped(OverBudget)
                 else Writes(store, Plan(left)))
    && (left != [] ==> after.dropped == |d.staged| + d.dropped - |left|)
  }

  lemma RetryAfterOthers(d: Device, base: Log, plan: seq<Entry>, store: Log)
    requires Planned(d, base, plan) && base + plan <= store && Valid(store) && EncodeError(store).None?
    ensures RetriedSince(d, base + plan, store)
  {
    LostAnswerThenOthers(d, base, plan, store);
    WhatStopsAPublish(d, Serve(store));
    BeginLeavesTheRead(d, Serve(store));
  }

  /** The read of a publish leaves what the read alone would, but for a count that is answered. */
  lemma BeginLeavesTheRead(d: Device, f: Fetched)
    requires d.staged != []
    ensures
      var (after, read) := (BeginPublish(d, f).0, ReadStore(d, f).0);
      && after.staged == read.staged && LogOf(after) == LogOf(read)
      && (read.staged != [] ==> after == read)
  {
  }

  /** A refresh fails exactly as its read does, and otherwise counts every drop no answer has counted. */
  lemma WhatARefreshAnswers(d: Device, f: Fetched)
    requires Admitted(d) && Genuine(f)
    ensures
      var (after, answer) := Refresh(d, f);
      var (read, problem) := ReadStore(d, f);
      && (answer.Ok? <==> problem.None?)
      && (forall p :: answer == Err(ReadFailed(p)) <==> problem == Some(p))
      && (answer.Err? ==> answer.error.ReadFailed? && after == d.(problem := problem))
      && (answer.Ok? ==>
            && answer.value + |after.staged| == |d.staged| + d.dropped
            && after.dropped == 0 && after.staged == read.staged && LogOf(after) == LogOf(read) && after.answered)
  {
    ReadKeeps(d, f);
  }

  lemma WhatAWriteAnswers(d: Device, f: Fetched, answer: WriteAnswer)
    requires Admitted(d) && Genuine(f) && BeginPublish(d, f).1.Writes?
    ensures
      var (read, problem) := ReadStore(d, f);
      var (after, result) := Publish(d, f, answer);
      && (answer.NotTaken? ==> result == Err(StoreFailed(answer.why)) && after == read)
      && (answer.Taken? ==>
            result == Ok(Published(Some(|LogOf(read)|), |d.staged| + d.dropped - |read.staged|)))
  {
    ReadCounts(d, f);
    WritesOnWhatWasRead(d, f);
  }

  /** Whether a publish gets as far as its write. */
  predicate GetsToWrite(d: Device, f: Fetched) {
    var (read, problem) := ReadStore(d, f);
    && d.staged != [] && problem.None? && read.staged != []
    && Readable(read) && WithinBudget(LogOf(read), read.staged)
  }

  /** Every way a publish can end, each told from what was staged, what was read, and what the write heard. */
  lemma WhatAPublishAnswers(d: Device, f: Fetched, answer: WriteAnswer)
    requires Admitted(d) && Genuine(f)
    ensures
      var (read, problem) := ReadStore(d, f);
      var (after, result) := Publish(d, f, answer);
      && (d.staged == [] ==> result == Err(NothingStaged) && after == d)
      && (d.staged != [] && problem.Some? ==> result == Err(ReadFailed(problem.value)) && after == read)
      && (d.staged != [] && problem.None? && read.staged == [] ==>
            result == Ok(Published(None, |d.staged| + d.dropped)))
      && (d.staged != [] && problem.None? && read.staged != [] && !GetsToWrite(d, f) ==>
            result == Err(if Readable(read) then OverBudget else Unreadable) && after == read)
      && (GetsToWrite(d, f) && answer.NotTaken? ==> result == Err(StoreFailed(answer.why)) && after == read)
      && (GetsToWrite(d, f) && answer.Taken? ==>
            result == Ok(Published(Some(|LogOf(read)|), |d.staged| + d.dropped - |read.staged|)))
  {
    if d.staged != [] {
      ReadCounts(d, f);
      WhatStopsAPublish(d, f);
      if GetsToWrite(d, f) {
        WhatAWriteAnswers(d, f, answer);
      }
    }
  }

  /** What a publish sends is the whole log it plans to leave, and a write taken leaves exactly that. */
  lemma WhatIsSent(d: Device, f: Fetched, answer: WriteAnswer)
    requires Admitted(d) && Genuine(f)
    ensures
      var (after, result) := Publish(d, f, answer);
      var start := BeginPublish(d, f).1;
      && (result.Ok? && result.value.firstNewIndex.Some? <==> start.Writes? && answer.Taken?)
      && (start.Writes? && answer.Taken? ==>
            LogOf(after) == start.base + start.plan && EncodeError(LogOf(after)).None?)
  {
    BeginPublishKeeps(d, f);
    var (read, start) := BeginPublish(d, f);
    if start.Writes? {
      WrittenLog(read, start.base, start.plan);
    }
  }

  /** What throwing away leaves, field by field. */
  lemma WhatIsThrownAway(d: Device)
    ensures Discard(d).staged == [] && Discard(d) == d.(staged := Discard(d).staged)
    ensures
      var f := Forget(d);
      f.staged == [] && !f.answered && f.problem.None? && f.dropped == 0 && f.held == d.held
    ensures
      var u := Unread(d);
      u.staged == d.staged && !u.answered && u.problem.None? && u.dropped == 0 && u.held == d.held
  {
  }

  /** The edits that wait, and those dropped that no answer counted yet. */
  function Outstanding(d: Device): nat {
    |d.staged| + d.dropped
  }

  /** What a publish may make of `outstanding` edits: keep them, count them all, or write and count them. */
  predicate LosesNoEdit(outstanding: nat, base: Log, after: Device, result: Result<Published, EditError>) {
    match result
    case Err(_) => Outstanding(after) == outstanding
    case Ok(Published(None, counted)) => Outstanding(after) == 0 && counted == outstanding >= 1
    case Ok(Published(Some(first), counted)) =>
      && Outstanding(after) == 0 && first == |base| && base <= LogOf(after)
      && counted + |LogOf(after)| - |base| == outstanding
  }

  lemma WriteLosesNoEdit(read: Device, base: Log, plan: seq<Entry>, answer: WriteAnswer)
    requires Planned(read, base, plan)
    ensures
      var (after, result) := FinishPublish(read, base, plan, answer);
      Sound(after) && LogOf(read) <= LogOf(after) && LosesNoEdit(Outstanding(read), base, after, result)
  {
    AcknowledgedPublish(read, base, plan);
    PlanEffect(base, read.staged, 0);
  }

  lemma NoWriteLosesNoEdit(d: Device, f: Fetched, answer: WriteAnswer)
    requires Admitted(d) && Genuine(f) && !BeginPublish(d, f).1.Writes?
    ensures
      var (after, result) := Publish(d, f, answer);
      after == BeginPublish(d, f).0 && LosesNoEdit(Outstanding(d), LogOf(after), after, result)
  {
    BeginPublishKeeps(d, f);
  }

  /**
   * One publish, whatever the store did: the log shown is kept or extended, and every edit
   * that was waiting or dropped uncounted is still so, counted in the answer, or written. An
   * answer that wrote nothing counts at least one.
   */
  lemma PublishLosesNoEdit(d: Device, f: Fetched, answer: WriteAnswer)
    requires Admitted(d) && Genuine(f)
    ensures
      var (after, result) := Publish(d, f, answer);
      && Sustains(d, after) && LogOf(d) <= LogOf(after)
      && LosesNoEdit(Outstanding(d), LogOf(BeginPublish(d, f).0), after, result)
  {
    BeginPublishKeeps(d, f);
    BeginShows(d, f);
    var (read, start) := BeginPublish(d, f);
    if start.Writes? {
      WriteLosesNoEdit(read, start.base, start.plan, answer);
    } else {
      NoWriteLosesNoEdit(d, f, answer);
    }
  }

  lemma BeginShows(d: Device, f: Fetched)
    requires Admitted(d) && Genuine(f)
    ensures LogOf(d) <= LogOf(BeginPublish(d, f).0)
  {
    ReadKeeps(d, f);
  }
}
