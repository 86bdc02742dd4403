/**
 * What one handle holds about one account, and what each call of the manager makes of
 * it. Reads no vault: who may call what is decided by `AccountCore`.
 */
module AccountDevice {
  import opened Basics
  import opened Addresses
  import opened AccountLog
  import opened Codec
  import opened Profile
  import opened Staging
  import opened LogRows

  datatype ReadProblem = Unverified | Forked | Unanswered

  /** A store's answer to a fetch. A signature is the address whose key made it. */
  datatype Artifact = Silence | NoLog | SignedLog(signer: Address, payload: Bytes)

  /** What an answer comes to once its signature is checked and its payload decoded. */
  datatype Fetched = NoAnswer | NothingPublished | Unusable | Served(log: Log)

  datatype StoreError = Transport | Diverged | NoRoute

  /** What the writer hears. A write can land and its answer be lost, which reads as `Transport`. */
  datatype WriteAnswer = Taken | NotTaken(why: StoreError)

  datatype EditError =
    | Unreadable
    | InstallationLive
    | AlreadyStaged
    | EmptyDisplayName
    | DisplayNameTooLong(length: nat)
    | NameUnchanged
    | NotRevocable(index: nat)
    | OverBudget
    | NothingStaged
    | LogRefused(log: LogError)
    | ReadFailed(problem: ReadProblem)
    | StoreFailed(store: StoreError)

  /**
   * The resolver's log, which outlives a forget; whether a read answered since the
   * account was taken on; the problem the latest read met; the edits waiting; and the
   * dropped ones no answer has counted yet.
   */
  datatype Device = Device(
    held: Option<Log>,
    answered: bool,
    problem: Option<ReadProblem>,
    staged: seq<Edit>,
    dropped: nat)

  const NEW_DEVICE := Device(None, false, None, [], 0)

  /** What a publish did. */
  datatype Published = Published(firstNewIndex: Option<nat>, dropped: nat)

  // ---------- What is shown ----------

  function Record(d: Device): Option<Log> {
    if d.answered then d.held else None
  }

  /** The log an update extends: nothing published reads as a log of no entries. */
  function LogOf(d: Device): Log {
    match Record(d)
    case Some(log) => log
    case None => []
  }

  predicate Readable(d: Device) {
    Valid(LogOf(d))
  }

  function Pending(d: Device): seq<Row> {
    PendingRows(Plan(d.staged), |LogOf(d)|)
  }

  function LogBytes(d: Device): nat {
    PayloadBytes(LogOf(d))
  }

  // ---------- Reading ----------

  function Checked(addr: Address, artifact: Artifact): (f: Fetched)
    ensures Genuine(f)
  {
    match artifact
    case Silence => NoAnswer
    case NoLog => NothingPublished
    case SignedLog(signer, payload) =>
      match Decode(payload)
      case None => Unusable
      case Some(log) =>
        EncodeOfDecode(payload);
        if signer != addr then Unusable else Served(log)
  }

  /** A log that was decoded at all is one that encodes. */
  predicate Genuine(f: Fetched) {
    f.Served? ==> EncodeError(f.log).None?
  }

  /** A served log takes the place of the one held where it is an extension of it. */
  function Resolve(held: Option<Log>, f: Fetched): Result<Option<Log>, ReadProblem> {
    match f
    case NoAnswer => Err(Unanswered)
    case NothingPublished => if held.None? then Ok(None) else Err(Forked)
    case Unusable => Err(Unverified)
    case Served(log) => if held.Some? && !(held.value <= log) then Err(Forked) else Ok(Some(log))
  }

  /** Keep of the list what the log does not hold yet, and count what goes. */
  function Settle(d: Device): Device {
    if Record(d).None? || !Readable(d) then d
    else
      var left := Settled(LogOf(d), d.staged);
      SettledShrinks(LogOf(d), d.staged);
      d.(staged := left, dropped := d.dropped + |d.staged| - |left|)
  }

  lemma {:induction false} SettledShrinks(log: Log, staged: seq<Edit>)
    ensures |Settled(log, staged)| <= |staged|
  {
    if staged != [] {
      SettledShrinks(log, staged[..|staged| - 1]);
    }
  }

  function ReadStore(d: Device, f: Fetched): (Device, Option<ReadProblem>) {
    match Resolve(d.held, f)
    case Err(problem) => (d.(problem := Some(problem)), Some(problem))
    case Ok(held) => (Settle(d.(held := held, answered := true, problem := None)), None)
  }

  function Refresh(d: Device, f: Fetched): (Device, Result<nat, EditError>) {
    var (read, problem) := ReadStore(d, f);
    match problem
    case Some(p) => (read, Err(ReadFailed(p)))
    case None => (read.(dropped := 0), Ok(read.dropped))
  }

  // ---------- Staging ----------

  /** Why an update of `staged` would not be taken by the log as last read, if it would not. */
  function Unfit(d: Device, staged: seq<Edit>): Option<EditError> {
    if !Readable(d) then Some(Unreadable)
    else
      match PushAll(LogOf(d), Plan(staged))
      case Err(error) => Some(LogRefused(error))
      case Ok(draft) =>
        match EncodeError(draft)
        case None => None
        case Some(error) => Some(if error.TooLarge? then OverBudget else LogRefused(error))
  }

  function Restage(d: Device, staged: seq<Edit>): (Device, Option<EditError>) {
    match Unfit(d, staged)
    case Some(error) => (d, Some(error))
    case None => (d.(staged := staged), None)
  }

  function StageAddInstallation(d: Device, key: Key): (Device, Option<EditError>) {
    if !Readable(d) then (d, Some(Unreadable))
    else if KeyLive(LogOf(d), key) then (d, Some(InstallationLive))
    else if AddInstallation(key) in d.staged then (d, Some(AlreadyStaged))
    else Restage(d, d.staged + [AddInstallation(key)])
  }

  function WithoutNames(staged: seq<Edit>): seq<Edit> {
    if staged == [] then []
    else
      var n := |staged| - 1;
      WithoutNames(staged[..n]) + if staged[n].SetDisplayName? then [] else [staged[n]]
  }

  /** The name as it would be published, or why it is not one. */
  function NameError(name: Bytes): Option<EditError> {
    if name == [] then Some(EmptyDisplayName)
    else if |name| > MAX_DISPLAY_NAME_BYTES then Some(DisplayNameTooLong(|name|))
    else None
  }

  function StageSetDisplayName(d: Device, name: Bytes): (Device, Option<EditError>) {
    if NameError(name).Some? then (d, NameError(name))
    else if !Readable(d) then (d, Some(Unreadable))
    else
      var others := WithoutNames(d.staged);
      if LiveDisplayName(LogOf(d)) != Some(name) then Restage(d, others + [SetDisplayName(name)])
      else if |others| == |d.staged| then (d, Some(NameUnchanged))
      else Restage(d, others)
  }

  function StageRevoke(d: Device, index: nat): (Device, Option<EditError>) {
    if !Readable(d) then (d, Some(Unreadable))
    else if !Live(LogOf(d), index) then (d, Some(NotRevocable(index)))
    else if Revoke(index) in d.staged then (d, Some(AlreadyStaged))
    else Restage(d, d.staged + [Revoke(index)])
  }

  function Discard(d: Device): Device {
    d.(staged := [])
  }

  /** What a forget leaves: the resolver's log, and nothing that says the store answered. */
  function Forget(d: Device): Device {
    NEW_DEVICE.(held := d.held)
  }

  /** What dropping all that was read leaves, and nothing else. */
  function Unread(d: Device): Device {
    d.(answered := false, problem := None, dropped := 0)
  }

  // ---------- Publishing: a read, then a write ----------

  /** Where a publish stands once its read is done. */
  datatype Start =
    | Stopped(error: EditError)
    | AlreadyHeld(dropped: nat)
    | Writes(base: Log, plan: seq<Entry>)

  function BeginPublish(d: Device, f: Fetched): (Device, Start) {
    if d.staged == [] then (d, Stopped(NothingStaged))
    else
      var (read, problem) := ReadStore(d, f);
      if problem.Some? then (read, Stopped(ReadFailed(problem.value)))
      else if read.staged == [] then (read.(dropped := 0), AlreadyHeld(read.dropped))
      else
        match Unfit(read, read.staged)
        case Some(error) => (read, Stopped(error))
        case None => (read, Writes(LogOf(read), Plan(read.staged)))
  }

  /** The write's answer, and the read-back of a write that was taken. */
  function FinishPublish(d: Device, base: Log, plan: seq<Entry>, answer: WriteAnswer)
    : (Device, Result<Published, EditError>)
  {
    match answer
    case NotTaken(why) => (d, Err(StoreFailed(why)))
    case Taken =>
      (d.(held := Some(base + plan), staged := [], dropped := 0),
       Ok(Published(Some(|base|), d.dropped)))
  }

  function Publish(d: Device, f: Fetched, answer: WriteAnswer): (Device, Result<Published, EditError>) {
    var (read, start) := BeginPublish(d, f);
    match start
    case Stopped(error) => (read, Err(error))
    case AlreadyHeld(dropped) => (read, Ok(Published(None, dropped)))
    case Writes(base, plan) => FinishPublish(read, base, plan, answer)
  }
}
