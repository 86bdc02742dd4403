/**
 * The handle the app calls: a vault, a list of observed accounts, and what this session
 * read, staged and unlocked. What the network answers to a read or a write is a parameter
 * of the call that asks.
 */
module AccountCore {
  import opened Basics
  import opened Addresses
  import opened AccountLog
  import opened Codec
  import opened Profile
  import opened Staging
  import opened LogRows
  import opened AccountDevice
  import opened DeviceTheorems
  import opened Sessions
  import opened VaultNames
  import opened Vault
  import opened Roster
  import Observed

  datatype CoreError =
    | InVault(vault: VaultError)
    | InList(list: Observed.ObservedError)
    | InEdit(edit: EditError)
    | UnknownAccount
    | NotManaged
    | Locked
    | AlreadyManaged
    | NotAKey

  /** What the screen of one account is drawn from. */
  datatype State = State(
    managed: bool,
    sealed: bool,
    locked: bool,
    resolved: bool,
    problem: Option<ReadProblem>,
    published: bool,
    logBytes: nat,
    displayName: Option<Name>,
    previousNames: seq<Name>,
    entries: seq<Row>,
    unreadable: bool,
    pending: seq<Row>)

  /**
   * A screen true to one account. Of a log this build reads, the row sizes and the domain
   * make up the payload, and the pending rows are numbered as they will land. Of any other,
   * they are numbered after the rows shown, which is where they would land only as told.
   */
  predicate Draws(state: State, d: Device) {
    && state.resolved == d.answered && state.problem == d.problem && state.published == Record(d).Some?
    && state.logBytes == LogBytes(d) && state.unreadable == !Readable(d)
    && (Record(d).None? ==> state.logBytes == 17)
    && (Record(d).Some? && AllEncodable(d.held.value) ==> state.logBytes == |Payload(d.held.value)|)
    && TellLog(state.entries, LogOf(d)) && TellPlan(state.pending, Plan(d.staged))
    && IsInForce(LogOf(d), state.displayName) && state.previousNames == PreviousNames(LogOf(d))
    && (Readable(d) ==>
          && state.entries == LogRows.Entries(LogOf(d)) && state.pending == Pending(d)
          && DOMAIN_BYTES + TotalBytes(state.entries) == state.logBytes)
    && (!Readable(d) ==>
          && state.entries == MarkedRows(RowsByContext(LogOf(d), |LogOf(d)|), LogOf(d))
          && state.pending == PendingRows(Plan(d.staged), |state.entries|)
          && (state.pending == Pending(d) <==> d.staged == [] || AllByContext(LogOf(d))))
  }

  /** Each row is of an entry of the log, shows what it holds, and is live as it is. */
  predicate TellLog(rows: seq<Row>, log: Log) {
    forall i :: 0 <= i < |rows| ==>
      rows[i].index < |log| && Tells(rows[i], log[rows[i].index]) && (rows[i].live <==> Live(log, rows[i].index))
  }

  /** One row for each entry planned, showing what it holds. */
  predicate TellPlan(rows: seq<Row>, plan: seq<Entry>) {
    |rows| == |plan| && forall i :: 0 <= i < |rows| ==> Tells(rows[i], plan[i]) && (rows[i].live <==> !plan[i].Remove?)
  }

  lemma PendingTell(plan: seq<Entry>, base: nat)
    ensures TellPlan(PendingRows(plan, base), plan)
  {
    forall o | 0 <= o < |plan|
      ensures Tells(PendingRows(plan, base)[o], plan[o]) && (PendingRows(plan, base)[o].live <==> !plan[o].Remove?)
    {
      PendingRowsTell(plan, base, o);
    }
  }

  /** The rows of a log: all of them where this build reads it, and those by context where it does not. */
  function RowsShown(log: Log): seq<Row> {
    if Valid(log) then LogRows.Entries(log) else MarkedRows(RowsByContext(log, |log|), log)
  }

  function StateOf(d: Device, managed: bool, sealed: bool, locked: bool, entries: seq<Row>): State {
    var names := LiveDisplayNames(LogOf(d));
    State(managed, sealed, locked, d.answered, d.problem, Record(d).Some?, LogBytes(d),
          if names == [] then None else Some(names[|names| - 1]), PreviousNames(LogOf(d)),
          entries, !Readable(d), PendingRows(Plan(d.staged), |entries|))
  }

  lemma ReadableRows(d: Device)
    requires Readable(d)
    ensures PendingRows(Plan(d.staged), |RowsShown(LogOf(d))|) == Pending(d)
    ensures DOMAIN_BYTES + TotalBytes(RowsShown(LogOf(d))) == LogBytes(d)
  {
    RowsAccountForTheLog(LogOf(d));
    PayloadLength(LogOf(d));
  }

  lemma StateDraws(d: Device, managed: bool, sealed: bool, locked: bool, entries: seq<Row>)
    requires entries == RowsShown(LogOf(d))
    ensures Draws(StateOf(d, managed, sealed, locked, entries), d)
  {
    ListedNameInForce(LogOf(d));
    RowsShownTell(LogOf(d));
    PendingTell(Plan(d.staged), |entries|);
    BytesShown(d);
    if Readable(d) {
      ReadableRows(d);
    } else {
      PendingAfterRowsByContext(LogOf(d), d.staged);
    }
  }

  lemma BytesShown(d: Device)
    ensures Record(d).None? ==> LogBytes(d) == 17
    ensures Record(d).Some? && AllEncodable(d.held.value) ==> LogBytes(d) == |Payload(d.held.value)|
  {
    if Record(d).Some? && AllEncodable(d.held.value) {
      PayloadLength(d.held.value);
    }
  }

  lemma RowsShownTell(log: Log)
    ensures TellLog(RowsShown(log), log)
  {
    forall i | 0 <= i < |RowsShown(log)|
      ensures
        var row := RowsShown(log)[i];
        row.index < |log| && Tells(row, log[row.index]) && (row.live <==> Live(log, row.index))
    {
      if Valid(log) {
        EntryRowsTell(log, i);
      } else {
        RowsByContextTell(log, i);
      }
    }
  }

  /** Why a write to `addr` is refused. The vault is asked first, so an unreadable list takes nothing away. */
  ghost function ManagedError(files: Directory, list: Observed.Contents, addr: Address): Option<CoreError> {
    if !OneNameEach(files) then Some(InVault(Corrupt))
    else if HoldsKey(files, addr) then None
    else if !Observed.Readable(list) then Some(InList(Observed.NotAList))
    else if addr in Observed.Listed(list) then Some(NotManaged)
    else Some(UnknownAccount)
  }

  /** Why a read of `addr` is refused. */
  ghost function KnownError(files: Directory, list: Observed.Contents, addr: Address): Option<CoreError> {
    var error := ManagedError(files, list, addr);
    if error == Some(NotManaged) then None else error
  }

  /** Why `addr` has no key to sign with. */
  ghost function SigningError(files: Directory, unlocked: map<Address, SigningKey>, addr: Address): Option<CoreError> {
    if addr in unlocked then None
    else if !OneNameEach(files) then Some(InVault(Corrupt))
    else
      match OpenError(files, addr, None)
      case None => None
      case Some(PasswordRequired) => Some(Locked)
      case Some(error) => Some(InVault(error))
  }

  /** An account kept without a password, its file holding its own key. */
  predicate OpenFileIsOwn(files: Directory, addr: Address) {
    var name := PathOf(addr, false);
    name in files && files[name].OpenDocument? && files[name].key.address == addr
  }

  /** A write is for an account held and a read for one in either group; a refusal says which is missing. */
  lemma WhoMayCall(files: Directory, list: Observed.Contents, addr: Address)
    ensures
      var (write, read) := (ManagedError(files, list, addr), KnownError(files, list, addr));
      var held := PathOf(addr, true) in files || PathOf(addr, false) in files;
      var listed := list.Document? && addr in list.addresses;
      && (write == Some(InVault(Corrupt)) <==> !OneNameEach(files))
      && (write.None? <==> OneNameEach(files) && held)
      && (write == Some(InList(Observed.NotAList)) <==> OneNameEach(files) && !held && !Observed.Readable(list))
      && (write == Some(NotManaged) <==> OneNameEach(files) && !held && Observed.Readable(list) && listed)
      && (write == Some(UnknownAccount) <==> OneNameEach(files) && !held && Observed.Readable(list) && !listed)
      && (read.None? <==> OneNameEach(files) && (held || (Observed.Readable(list) && listed)))
      && (read.Some? ==> read == write)
  {
  }

  /** A session's own key signs; else one kept without a password; a sealed one is asked to be unlocked. */
  lemma WhoMaySign(files: Directory, unlocked: map<Address, SigningKey>, addr: Address)
    requires OneNameEach(files)
    ensures
      var error := SigningError(files, unlocked, addr);
      && (error.None? <==> addr in unlocked || OpenFileIsOwn(files, addr))
      && (error == Some(Locked) <==> addr !in unlocked && PathOf(addr, true) in files)
  {
    WhatOpens(files, addr, None);
  }

  /** Staged and unlocked are of accounts held, unlocked of sealed ones, and no account held is observed. */
  ghost predicate InGroups(files: Directory, list: Observed.Contents, staged: set<Address>, unlocked: set<Address>) {
    && OneNameEach(files) && Observed.Readable(list)
    && (forall addr :: addr in staged ==> HoldsKey(files, addr))
    && (forall addr :: addr in unlocked ==> PathOf(addr, true) in files)
    && forall addr: Address :: HoldsKey(files, addr) ==> addr !in Observed.Listed(list)
  }

  /** A key taken in keeps the groups apart exactly where its account is not observed. */
  lemma TakenIn(files: Directory, after: Directory, list: Observed.Contents,
                staged: set<Address>, unlocked: set<Address>, addr: Address, sealed: bool)
    requires InGroups(files, list, staged, unlocked) && OneNameEach(after)
    requires after.Keys == files.Keys + {PathOf(addr, sealed)}
    ensures InGroups(after, list, staged, unlocked + if sealed then {addr} else {}) <==>
              addr !in Observed.Listed(list)
    ensures HoldsKey(after, addr)
  {
    NamesDiffer(addr);
  }

  /** A key taken in and its address taken off the list keep the groups apart. */
  lemma MovedOver(files: Directory, after: Directory, list: Observed.Contents, shorter: Observed.Contents,
                  staged: set<Address>, unlocked: set<Address>, addr: Address, sealed: bool)
    requires InGroups(files, list, staged, unlocked) && OneNameEach(after) && Observed.Readable(shorter)
    requires after.Keys == files.Keys + {PathOf(addr, sealed)}
    requires Observed.Listed(shorter) == Observed.Listed(list) - {addr}
    ensures InGroups(after, shorter, staged, unlocked + if sealed then {addr} else {})
  {
    NamesDiffer(addr);
  }

  lemma Dropped(files: Directory, after: Directory, list: Observed.Contents,
                staged: set<Address>, unlocked: set<Address>, addr: Address)
    requires after == files - {PathOf(addr, true), PathOf(addr, false)}
    ensures !HoldsKey(after, addr)
    ensures InGroups(files, list, staged, unlocked) ==> InGroups(after, list, staged - {addr}, unlocked - {addr})
  {
    NamesDiffer(addr);
  }

  /** Push `entries` one by one, stopping at the first one refused. */
  method PushEach(draft: Log, entries: seq<Entry>) returns (r: Result<Log, LogError>)
    ensures r == PushAll(draft, entries)
  {
    var longer := draft;
    for i := 0 to |entries|
      invariant PushAll(longer, entries[i..]) == PushAll(draft, entries)
    {
      var pushed := Push(longer, entries[i]);
      assert entries[i..][1..] == entries[i + 1..];
      if pushed.Err? {
        return pushed;
      }
      longer := pushed.value;
    }
    r := Ok(longer);
  }

  /** How long a payload these entries alone would make, the domain's own length where they make none. */
  method MeasuredSize(entries: seq<Entry>) returns (bytes: int)
    ensures bytes == EncodedSize(entries)
  {
    var draft := PushEach([], entries);
    if draft.Err? || EncodeError(draft.value).Some? {
      return DOMAIN_BYTES;
    }
    bytes := PayloadBytes(draft.value);
  }

  /** `retain` on what the log does not hold. */
  method Left(log: Log, staged: seq<Edit>) returns (left: seq<Edit>)
    ensures left == Settled(log, staged)
  {
    left := [];
    for i := 0 to |staged|
      invariant left == Settled(log, staged[..i])
    {
      assert staged[..i + 1][..i] == staged[..i];
      if Keeps(log, staged[i]) {
        left := left + [staged[i]];
      }
    }
    assert staged[..|staged|] == staged;
  }

  /** `retain` on all but the names. */
  method WithNoName(staged: seq<Edit>) returns (others: seq<Edit>)
    ensures others == WithoutNames(staged)
  {
    others := [];
    for i := 0 to |staged|
      invariant others == WithoutNames(staged[..i])
    {
      assert staged[..i + 1][..i] == staged[..i];
      if !staged[i].SetDisplayName? {
        others := others + [staged[i]];
      }
    }
    assert staged[..|staged|] == staged;
  }

  /** The marking loop. */
  method MarkEach(plain: seq<Row>, log: Log) returns (rows: seq<Row>)
    ensures rows == MarkedRows(plain, log)
  {
    rows := [];
    for i := 0 to |plain|
      invariant |rows| == i && forall k :: 0 <= k < i ==> rows[k] == Marked(plain[k], log)
    {
      rows := rows + [Marked(plain[i], log)];
    }
  }

  class AccountCore {
    const vault: Vault
    const observed: Observed.ObservedAccounts
    var resolver: map<Address, Log>
    var written: Option<(Address, Artifact)>
    var read: map<Address, LastRead>
    var staged: map<Address, seq<Edit>>
    var dropped: map<Address, nat>
    var unlocked: map<Address, SigningKey>

    function Session(): Session
      reads this
    {
      Sessions.Session(resolver, read, staged, dropped)
    }

    /** Every call needs it and every call keeps it, whatever is in the vault and in the list. */
    ghost predicate Valid()
      reads this
    {
      && Kept(Session())
      && written.None?
      && forall addr :: addr in unlocked ==> unlocked[addr].address == addr
    }

    /** No account's list stands on a log dropped from under it. Only `StopObserving` can end it. */
    ghost predicate Steady()
      reads this
    {
      AllSound(Session())
    }

    /**
     * Holds between calls too, while only this handle writes the vault and the list: what is
     * staged and what is unlocked is of accounts held, and no account is in both groups.
     */
    ghost predicate Rooted()
      reads this, vault, observed
    {
      InGroups(vault.files, observed.file, staged.Keys, unlocked.Keys)
    }

    constructor ()
      ensures Valid() && Steady() && Rooted() && fresh(vault) && fresh(observed)
      ensures vault.files == map[] && observed.file.Missing? && unlocked == map[]
      ensures Session() == Sessions.Session(map[], map[], map[], map[])
    {
      vault := new Vault();
      observed := new Observed.ObservedAccounts();
      resolver, written, read, staged, dropped, unlocked := map[], None, map[], map[], map[], map[];
    }

    // ---------- Who may call ----------

    /** The vault's own entry for `addr`. */
    method Entry(addr: Address) returns (r: Result<Option<StoredAccount>, CoreError>)
      ensures r ==
                if !OneNameEach(vault.files) then Err(InVault(Corrupt))
                else if HoldsKey(vault.files, addr) then
                  Ok(Some(StoredAccount(addr, PathOf(addr, true) in vault.files)))
                else Ok(None)
    {
      var listed := vault.Accounts();
      if listed.Err? {
        return Err(InVault(listed.error));
      }
      var held := Find(listed.value, addr);
      assert StoredAccount(addr, true) in listed.value <==> PathOf(addr, true) in vault.files;
      assert StoredAccount(addr, false) in listed.value <==> PathOf(addr, false) in vault.files;
      r := Ok(held);
    }

    method Manages(addr: Address) returns (r: Result<bool, CoreError>)
      ensures r == if OneNameEach(vault.files) then Ok(HoldsKey(vault.files, addr)) else Err(InVault(Corrupt))
    {
      var held := Entry(addr);
      if held.Err? {
        return Err(held.error);
      }
      r := Ok(held.value.Some?);
    }

    method Observes(addr: Address) returns (r: Result<bool, CoreError>)
      ensures r == if Observed.Readable(observed.file) then Ok(addr in Observed.Listed(observed.file))
                   else Err(InList(Observed.NotAList))
    {
      var list := observed.List();
      if list.Err? {
        return Err(InList(list.error));
      }
      r := Ok(addr in list.value);
    }

    method RequireManaged(addr: Address) returns (error: Option<CoreError>)
      ensures error == ManagedError(vault.files, observed.file, addr)
    {
      var managed := Manages(addr);
      if managed.Err? {
        return Some(managed.error);
      }
      if managed.value {
        return None;
      }
      var observes := Observes(addr);
      if observes.Err? {
        return Some(observes.error);
      }
      error := Some(if observes.value then NotManaged else UnknownAccount);
    }

    method RequireKnown(addr: Address) returns (error: Option<CoreError>)
      ensures error == KnownError(vault.files, observed.file, addr)
    {
      var managed := Manages(addr);
      if managed.Err? {
        return Some(managed.error);
      }
      if managed.value {
        return None;
      }
      var observes := Observes(addr);
      if observes.Err? {
        return Some(observes.error);
      }
      error := if observes.value then None else Some(UnknownAccount);
    }

    /** What a publish signs with: a key opened this session, or one kept without a password. It derives `addr`. */
    method SigningKeyOf(addr: Address) returns (r: Result<SigningKey, CoreError>)
      requires Valid()
      ensures r.Ok? ==> SigningError(vault.files, unlocked, addr).None? && r.value.address == addr
      ensures r.Err? ==> SigningError(vault.files, unlocked, addr) == Some(r.error)
      ensures addr in unlocked ==> r == Ok(unlocked[addr])
      ensures OneNameEach(vault.files) ==>
                (r == Err(Locked) <==> addr !in unlocked && PathOf(addr, true) in vault.files)
      ensures OneNameEach(vault.files) && addr !in unlocked ==>
                (r.Ok? <==> OpenFileIsOwn(vault.files, addr))
      ensures r.Ok? && addr !in unlocked ==>
                PathOf(addr, false) in vault.files && r == Ok(vault.files[PathOf(addr, false)].key)
    {
      if OneNameEach(vault.files) {
        WhoMaySign(vault.files, unlocked, addr);
      }
      if addr in unlocked {
        return Ok(unlocked[addr]);
      }
      var found := vault.Open(addr, None);
      match found {
        case Ok(key) => return Ok(key);
        case Err(PasswordRequired) => return Err(Locked);
        case Err(error) => return Err(InVault(error));
      }
    }

    // ---------- Reading ----------

    /** What the resolver fetches: the log a publish just wrote, once, or the store's answer. */
    method Provide(addr: Address, artifact: Artifact) returns (fetched: Artifact)
      modifies this`written
      ensures
        var slot := old(written);
        if slot.Some? && slot.value.0 == addr then fetched == slot.value.1 && written.None?
        else fetched == artifact && written == slot
    {
      if written.Some? && written.value.0 == addr {
        fetched := written.value.1;
        written := None;
      } else {
        fetched := artifact;
      }
    }

    /** The resolver's read: what was fetched takes the place of what is held where it is an extension of it. */
    method ResolveThrough(addr: Address, artifact: Artifact) returns (problem: Option<ReadProblem>)
      requires written.Some? ==> written.value.0 == addr
      modifies this`written, this`resolver
      ensures written.None?
      ensures
        var fetched := if old(written).Some? then old(written).value.1 else artifact;
        var before := View(old(Session()), addr);
        match AccountDevice.Resolve(before.held, Checked(addr, fetched))
        case Err(p) => problem == Some(p) && resolver == old(resolver)
        case Ok(held) => problem == None && Only(old(Session()), Session(), addr, before.(held := held))
    {
      var fetched := Provide(addr, artifact);
      var held := if addr in resolver then Some(resolver[addr]) else None;
      var outcome := AccountDevice.Resolve(held, Checked(addr, fetched));
      if outcome.Err? {
        return Some(outcome.error);
      }
      if outcome.value.Some? {
        resolver := resolver[addr := outcome.value.value];
      }
      problem := None;
    }

    /** Keep `edits` for `addr`, and no entry for none. */
    method Put(addr: Address, edits: seq<Edit>)
      modifies this`staged
      ensures staged.Keys <= old(staged).Keys + if edits == [] then {} else {addr}
      ensures Tidy(old(Session())) ==> Tidy(Session())
      ensures Only(old(Session()), Session(), addr, View(old(Session()), addr).(staged := edits))
    {
      staged := if edits == [] then staged - {addr} else staged[addr := edits];
    }

    method CountDropped(addr: Address, gone: nat)
      modifies this`dropped
      ensures Tidy(old(Session())) ==> Tidy(Session())
      ensures
        var before := View(old(Session()), addr);
        Only(old(Session()), Session(), addr, before.(dropped := before.dropped + gone))
    {
      if gone > 0 {
        dropped := dropped[addr := gone + if addr in dropped then dropped[addr] else 0];
      }
    }

    /** Drop the staged edits of `addr` its log already holds, and count them. */
    method Settle(addr: Address)
      requires Tidy(Session())
      modifies this`staged, this`dropped
      ensures Tidy(Session()) && staged.Keys <= old(staged).Keys
      ensures Only(old(Session()), Session(), addr, AccountDevice.Settle(View(old(Session()), addr)))
    {
      var log := Record(View(Session(), addr));
      if log.None? || !AccountLog.Valid(log.value) || addr !in staged {
        return;
      }
      var before := staged[addr];
      var left := Left(log.value, before);
      SettledShrinks(log.value, before);
      Put(addr, left);
      CountDropped(addr, |before| - |left|);
    }

    /** Note how a read ended: one that failed leaves the copy on screen where it was. */
    method Note(addr: Address, problem: Option<ReadProblem>)
      modifies this`read
      ensures
        var before := View(old(Session()), addr);
        Only(old(Session()), Session(), addr,
             before.(answered := before.answered || problem.None?, problem := problem))
    {
      var last := if addr in read then read[addr] else LastRead(false, None);
      read := read[addr := LastRead(last.at || problem.None?, problem)];
    }

    /** Read the store for `addr` and settle what is staged against what it served. */
    method ReadStore(addr: Address, artifact: Artifact) returns (problem: Option<ReadProblem>)
      requires Valid()
      modifies this`written, this`resolver, this`read, this`staged, this`dropped
      ensures Valid() && (old(Steady()) ==> Steady()) && staged.Keys <= old(staged).Keys
      ensures problem.None? ==> Sound(View(Session(), addr))
      ensures problem == AccountDevice.ReadStore(View(old(Session()), addr), Checked(addr, artifact)).1
      ensures Only(old(Session()), Session(), addr,
                   AccountDevice.ReadStore(View(old(Session()), addr), Checked(addr, artifact)).0)
    {
      ghost var first := Session();
      problem := ResolveThrough(addr, artifact);
      ghost var resolved := Session();
      Note(addr, problem);
      ghost var noted := Session();
      if problem.None? {
        Settle(addr);
      }
      ReadInSteps(first, resolved, noted, Session(), addr, Checked(addr, artifact));
      ReadKeepsSession(first, Session(), addr, Checked(addr, artifact));
    }

    method TakeDropped(addr: Address) returns (count: nat)
      modifies this`dropped
      ensures count == View(old(Session()), addr).dropped
      ensures Only(old(Session()), Session(), addr, View(old(Session()), addr).(dropped := 0))
      ensures Tidy(old(Session())) ==> Tidy(Session())
    {
      count := if addr in dropped then dropped[addr] else 0;
      dropped := dropped - {addr};
    }

    /** The refresh itself, of an account in either group. */
    method ReadAndCount(addr: Address, artifact: Artifact) returns (r: Result<nat, CoreError>)
      requires Valid()
      modifies this`written, this`resolver, this`read, this`staged, this`dropped
      ensures Valid() && (old(Steady()) ==> Steady()) && staged.Keys <= old(staged).Keys
      ensures r.Ok? ==> Sound(View(Session(), addr))
      ensures
        var (after, answer) := AccountDevice.Refresh(View(old(Session()), addr), Checked(addr, artifact));
        && r == (match answer case Ok(v) => Ok(v) case Err(e) => Err(InEdit(e)))
        && Only(old(Session()), Session(), addr, after)
    {
      var problem := ReadStore(addr, artifact);
      if problem.Some? {
        return Err(InEdit(ReadFailed(problem.value)));
      }
      ghost var read := Session();
      var count := TakeDropped(addr);
      OnlyKeeps(read, Session(), addr, View(read, addr).(dropped := 0));
      r := Ok(count);
    }

    /** A read on its own. Its answer counts the drops no earlier answer did, a failed publish's among them. */
    method Refresh(addr: Address, artifact: Artifact) returns (r: Result<nat, CoreError>)
      requires Valid()
      modifies this
      ensures Valid() && unlocked == old(unlocked) && (old(Rooted()) ==> Rooted())
      ensures (old(Steady()) ==> Steady()) && (r.Ok? ==> Sound(View(Session(), addr)))
      ensures
        var before := View(old(Session()), addr);
        var problem := AccountDevice.ReadStore(before, Checked(addr, artifact)).1;
        KnownError(vault.files, observed.file, addr).None? ==>
          && (r.Ok? <==> problem.None?)
          && (forall p :: r == Err(InEdit(ReadFailed(p))) <==> problem == Some(p))
          && (r.Ok? ==> r.value + |View(Session(), addr).staged| == |before.staged| + before.dropped)
      ensures
        match KnownError(vault.files, observed.file, addr)
        case Some(error) => r == Err(error) && Session() == old(Session())
        case None =>
          var (after, answer) := AccountDevice.Refresh(View(old(Session()), addr), Checked(addr, artifact));
          && r == (match answer case Ok(v) => Ok(v) case Err(e) => Err(InEdit(e)))
          && Only(old(Session()), Session(), addr, after)
    {
      var refused := RequireKnown(addr);
      if refused.Some? {
        return Err(refused.value);
      }
      AdmittedIn(Session(), addr);
      WhatARefreshAnswers(View(Session(), addr), Checked(addr, artifact));
      r := ReadAndCount(addr, artifact);
    }

    // ---------- Staging ----------

    /** Whether the log as last read takes an update of `edits`, found by pushing it. */
    method Fits(addr: Address, edits: seq<Edit>) returns (error: Option<EditError>)
      ensures error == Unfit(View(Session(), addr), edits)
    {
      var d := View(Session(), addr);
      if !Readable(d) {
        return Some(Unreadable);
      }
      var draft := PushEach(LogOf(d), Plan(edits));
      if draft.Err? {
        return Some(LogRefused(draft.error));
      }
      var refused := EncodeError(draft.value);
      if refused.None? {
        return None;
      }
      error := Some(if refused.value.TooLarge? then OverBudget else LogRefused(refused.value));
    }

    /** Replace the list of `addr` by `edits`, unless the log would refuse an update made of them. */
    method Restage(addr: Address, edits: seq<Edit>) returns (error: Option<CoreError>)
      modifies this`staged
      ensures staged.Keys <= old(staged).Keys + {addr} && (Tidy(old(Session())) ==> Tidy(Session()))
      ensures
        var (after, e) := AccountDevice.Restage(View(old(Session()), addr), edits);
        error == (if e.Some? then Some(InEdit(e.value)) else None) && Only(old(Session()), Session(), addr, after)
    {
      var refused := Fits(addr, edits);
      if refused.Some? {
        return Some(InEdit(refused.value));
      }
      Put(addr, edits);
      error := None;
    }

    method EditKey(addr: Address, key: Key) returns (error: Option<CoreError>)
      requires Tidy(Session())
      modifies this`staged
      ensures Tidy(Session()) && staged.Keys <= old(staged).Keys + {addr}
      ensures
        var (after, e) := AccountDevice.StageAddInstallation(View(old(Session()), addr), key);
        error == (if e.Some? then Some(InEdit(e.value)) else None) && Only(old(Session()), Session(), addr, after)
    {
      var d := View(Session(), addr);
      if !Readable(d) {
        return Some(InEdit(Unreadable));
      }
      if KeyLive(LogOf(d), key) {
        return Some(InEdit(InstallationLive));
      }
      if AddInstallation(key) in d.staged {
        return Some(InEdit(AlreadyStaged));
      }
      error := Restage(addr, d.staged + [AddInstallation(key)]);
    }

    /** Stage an installation's key. `key` is none where what was pasted is not one. */
    method StageAddInstallation(addr: Address, key: Option<Key>) returns (error: Option<CoreError>)
      requires Valid()
      modifies this`staged
      ensures Valid() && (old(Steady()) ==> Steady()) && (old(Rooted()) ==> Rooted())
      ensures
        match ManagedError(vault.files, observed.file, addr)
        case Some(e) => error == Some(e) && staged == old(staged)
        case None =>
          if key.None? then error == Some(NotAKey) && staged == old(staged)
          else
            var (after, e) := AccountDevice.StageAddInstallation(View(old(Session()), addr), key.value);
            error == (if e.Some? then Some(InEdit(e.value)) else None) && Only(old(Session()), Session(), addr, after)
    {
      error := RequireManaged(addr);
      if error.Some? {
        return;
      }
      if key.None? {
        return Some(NotAKey);
      }
      error := EditKey(addr, key.value);
      KeyStagedInSession(old(Session()), Session(), addr, key.value);
    }

    method EditName(addr: Address, name: Bytes) returns (error: Option<CoreError>)
      requires Tidy(Session())
      modifies this`staged
      ensures Tidy(Session()) && staged.Keys <= old(staged).Keys + {addr}
      ensures
        var (after, e) := AccountDevice.StageSetDisplayName(View(old(Session()), addr), name);
        error == (if e.Some? then Some(InEdit(e.value)) else None) && Only(old(Session()), Session(), addr, after)
    {
      if NameError(name).Some? {
        return Some(InEdit(NameError(name).value));
      }
      var d := View(Session(), addr);
      if !Readable(d) {
        return Some(InEdit(Unreadable));
      }
      var others := WithNoName(d.staged);
      if LiveDisplayName(LogOf(d)) != Some(name) {
        error := Restage(addr, others + [SetDisplayName(name)]);
      } else if |others| == |d.staged| {
        error := Some(InEdit(NameUnchanged));
      } else {
        error := Restage(addr, others);
      }
    }

    /** Stage the account's name, in place of any already staged. */
    method StageSetDisplayName(addr: Address, name: Bytes) returns (error: Option<CoreError>)
      requires Valid()
      modifies this`staged
      ensures Valid() && (old(Steady()) ==> Steady()) && (old(Rooted()) ==> Rooted())
      ensures
        match ManagedError(vault.files, observed.file, addr)
        case Some(e) => error == Some(e) && staged == old(staged)
        case None =>
          var (after, e) := AccountDevice.StageSetDisplayName(View(old(Session()), addr), name);
          error == (if e.Some? then Some(InEdit(e.value)) else None) && Only(old(Session()), Session(), addr, after)
    {
      error := RequireManaged(addr);
      if error.Some? {
        return;
      }
      error := EditName(addr, name);
      NameStagedInSession(old(Session()), Session(), addr, name);
    }

    method EditRevocation(addr: Address, index: nat) returns (error: Option<CoreError>)
      requires Tidy(Session())
      modifies this`staged
      ensures Tidy(Session()) && staged.Keys <= old(staged).Keys + {addr}
      ensures
        var (after, e) := AccountDevice.StageRevoke(View(old(Session()), addr), index);
        error == (if e.Some? then Some(InEdit(e.value)) else None) && Only(old(Session()), Session(), addr, after)
    {
      var d := View(Session(), addr);
      if !Readable(d) {
        return Some(InEdit(Unreadable));
      }
      if !Live(LogOf(d), index) {
        return Some(InEdit(NotRevocable(index)));
      }
      if Revoke(index) in d.staged {
        return Some(InEdit(AlreadyStaged));
      }
      error := Restage(addr, d.staged + [Revoke(index)]);
    }

    /** Queue the removal of one live entry. `index` is 32 bits wide. */
    method StageRevoke(addr: Address, index: nat) returns (error: Option<CoreError>)
      requires Valid() && index < 0x1_0000_0000
      modifies this`staged
      ensures Valid() && (old(Steady()) ==> Steady()) && (old(Rooted()) ==> Rooted())
      ensures
        match ManagedError(vault.files, observed.file, addr)
        case Some(e) => error == Some(e) && staged == old(staged)
        case None =>
          var (after, e) := AccountDevice.StageRevoke(View(old(Session()), addr), index);
          error == (if e.Some? then Some(InEdit(e.value)) else None) && Only(old(Session()), Session(), addr, after)
    {
      error := RequireManaged(addr);
      if error.Some? {
        return;
      }
      error := EditRevocation(addr, index);
      RevocationStagedInSession(old(Session()), Session(), addr, index);
    }

    /** Empty the list of `addr`. Nothing of it was ever sent. */
    method DiscardPending(addr: Address) returns (error: Option<CoreError>)
      requires Valid()
      modifies this`staged
      ensures Valid() && (old(Steady()) ==> Steady()) && (old(Rooted()) ==> Rooted())
      ensures error.None? ==> Sound(View(Session(), addr))
      ensures error == ManagedError(vault.files, observed.file, addr)
      ensures if error.Some? then staged == old(staged)
              else
                && Only(old(Session()), Session(), addr, Discard(View(old(Session()), addr)))
                && View(Session(), addr) == View(old(Session()), addr).(staged := [])
    {
      error := RequireManaged(addr);
      if error.Some? {
        return;
      }
      Put(addr, []);
      ThrowingAwayKeeps(old(Session()), Session(), addr);
    }

    // ---------- Publishing ----------

    /** The read after a write the store took, of the log it took. It cannot fail, whatever the store answers. */
    method ReadBack(addr: Address, log: Log, later: Artifact) returns (problem: Option<ReadProblem>)
      requires written.None? && EncodeError(log).None? && log != []
      requires addr in resolver ==> resolver[addr] <= log
      modifies this`written, this`resolver
      ensures written.None? && problem.None?
      ensures Only(old(Session()), Session(), addr, View(old(Session()), addr).(held := Some(log)))
    {
      ReadBackAdopts(addr, View(Session(), addr), log);
      written := Some((addr, SignedLog(addr, Encode(log).value)));
      problem := ResolveThrough(addr, later);
    }

    /**
     * A write the store took: nothing waits any more, and what was dropped is answered. A
     * read-back that failed would be answered as the failure; none does.
     */
    method Acknowledge(addr: Address, base: Log, plan: seq<Entry>, later: Artifact)
      returns (r: Result<Published, CoreError>)
      requires written.None? && Tidy(Session()) && EncodeError(base + plan).None? && base + plan != []
      requires addr in resolver ==> resolver[addr] <= base + plan
      modifies this`written, this`resolver, this`staged, this`dropped
      ensures written.None? && Tidy(Session()) && staged.Keys <= old(staged).Keys
      ensures r == Ok(Published(Some(|base|), View(old(Session()), addr).dropped))
      ensures Only(old(Session()), Session(), addr,
                   FinishPublish(View(old(Session()), addr), base, plan, Taken).0)
    {
      ghost var first := Session();
      Put(addr, []);
      ghost var unstaged := Session();
      var problem := ReadBack(addr, base + plan, later);
      ghost var resolved := Session();
      match problem {
        case Some(p) =>
          r := Err(InEdit(ReadFailed(p)));
        case None =>
          var count := TakeDropped(addr);
          r := Ok(Published(Some(|base|), count));
          WriteInSteps(first, unstaged, resolved, Session(), addr, base, plan);
      }
    }

    /** Sign and write the plan of `addr` on `base`. `later` is what the store answers a read after it. */
    method Write(addr: Address, key: SigningKey, base: Log, answer: WriteAnswer, later: Artifact)
      returns (r: Result<Published, CoreError>, sent: Artifact)
      requires Valid() && key.address == addr
      requires Planned(View(Session(), addr), base, Plan(View(Session(), addr).staged))
      modifies this`written, this`resolver, this`staged, this`dropped
      ensures Valid() && (old(Steady()) ==> Steady()) && staged.Keys <= old(staged).Keys
      ensures
        var before := View(old(Session()), addr);
        var (after, result) := FinishPublish(before, base, Plan(before.staged), answer);
        && r == (match result case Ok(v) => Ok(v) case Err(e) => Err(InEdit(e)))
        && Only(old(Session()), Session(), addr, after)
        && Encode(base + Plan(before.staged)).Ok?
        && sent == SignedLog(addr, Encode(base + Plan(before.staged)).value)
    {
      var plan := Plan(View(Session(), addr).staged);
      FinishIsSound(View(Session(), addr), base, plan);
      var update := PushEach(base, plan);
      sent := SignedLog(key.address, Encode(update.value).value);
      if answer.NotTaken? {
        return Err(InEdit(StoreFailed(answer.why))), sent;
      }
      r := Acknowledge(addr, base, plan, later);
      WriteKeepsSession(old(Session()), Session(), addr, base, plan);
    }

    /** The publish itself, with something staged and a key to sign with. */
    method ReadThenWrite(addr: Address, key: SigningKey, artifact: Artifact, answer: WriteAnswer, later: Artifact)
      returns (r: Result<Published, CoreError>, sent: Option<Artifact>)
      requires Valid() && key.address == addr && addr in staged
      modifies this`written, this`resolver, this`read, this`staged, this`dropped
      ensures Valid() && (old(Steady()) ==> Steady()) && staged.Keys <= old(staged).Keys
      ensures
        var before, fetched := View(old(Session()), addr), Checked(addr, artifact);
        var (after, result) := AccountDevice.Publish(before, fetched, answer);
        && r == (match result case Ok(v) => Ok(v) case Err(e) => Err(InEdit(e)))
        && Only(old(Session()), Session(), addr, after)
        && match BeginPublish(before, fetched).1
           case Writes(base, plan) =>
             Encode(base + plan).Ok? && sent == Some(SignedLog(addr, Encode(base + plan).value))
           case _ => sent == None
    {
      ghost var first, fetched := Session(), Checked(addr, artifact);
      PublishInSteps(first, addr, fetched, answer);
      var problem := ReadStore(addr, artifact);
      if problem.Some? {
        return Err(InEdit(ReadFailed(problem.value))), None;
      }
      if addr !in staged {
        var count := TakeDropped(addr);
        OnlyKeeps(first, Session(), addr, BeginPublish(View(first, addr), fetched).0);
        return Ok(Published(None, count)), None;
      }
      var unfit := Fits(addr, staged[addr]);
      if unfit.Some? {
        return Err(InEdit(unfit.value)), None;
      }
      var signed: Artifact;
      r, signed := Write(addr, key, LogOf(View(Session(), addr)), answer, later);
      sent := Some(signed);
    }

    /**
     * Carry out what is staged: read, settle, and send what is left in a single signed log, so
     * that either all of it is written or none. `artifact` answers the read before the write, `later` the one after.
     */
    method Publish(addr: Address, artifact: Artifact, answer: WriteAnswer, later: Artifact)
      returns (r: Result<Published, CoreError>, sent: Option<Artifact>)
      requires Valid()
      modifies this
      ensures Valid() && unlocked == old(unlocked)
      ensures (old(Steady()) ==> Steady()) && (old(Rooted()) ==> Rooted())
      ensures
        var before := View(old(Session()), addr);
        (&& OneNameEach(vault.files) && HoldsKey(vault.files, addr) && before.staged != []
         && (addr in unlocked || OpenFileIsOwn(vault.files, addr))) ==>
          var (after, result) := AccountDevice.Publish(before, Checked(addr, artifact), answer);
          && r == (match result case Ok(v) => Ok(v) case Err(e) => Err(InEdit(e)))
          && Only(old(Session()), Session(), addr, after)
      ensures OneNameEach(vault.files) ==>
                (r == Err(Locked) <==>
                 && View(old(Session()), addr).staged != []
                 && addr !in unlocked && PathOf(addr, true) in vault.files)
      ensures r.Ok? && r.value.firstNewIndex.Some? ==>
                var log := LogOf(View(Session(), addr));
                Encode(log).Ok? && sent == Some(SignedLog(addr, Encode(log).value))
      ensures r.Ok? && r.value.firstNewIndex.None? ==> sent == None
      ensures
        var before := View(old(Session()), addr);
        var managed := ManagedError(vault.files, observed.file, addr);
        var signing := SigningError(vault.files, unlocked, addr);
        if managed.Some? then r == Err(managed.value) && sent == None && Session() == old(Session())
        else if before.staged == [] then
          r == Err(InEdit(NothingStaged)) && sent == None && Session() == old(Session())
        else if signing.Some? then r == Err(signing.value) && sent == None && Session() == old(Session())
        else
          var fetched := Checked(addr, artifact);
          var (after, result) := AccountDevice.Publish(before, fetched, answer);
          && r == (match result case Ok(v) => Ok(v) case Err(e) => Err(InEdit(e)))
          && Only(old(Session()), Session(), addr, after)
          && match BeginPublish(before, fetched).1
           case Writes(base, plan) =>
             Encode(base + plan).Ok? && sent == Some(SignedLog(addr, Encode(base + plan).value))
           case _ => sent == None
    {
      var refused := RequireManaged(addr);
      if refused.Some? {
        return Err(refused.value), None;
      }
      if addr !in staged {
        return Err(InEdit(NothingStaged)), None;
      }
      var key := SigningKeyOf(addr);
      if key.Err? {
        return Err(key.error), None;
      }
      AdmittedIn(Session(), addr);
      WhatIsSent(View(Session(), addr), Checked(addr, artifact), answer);
      r, sent := ReadThenWrite(addr, key.value, artifact, answer, later);
    }

    // ---------- The two groups ----------

    /** Put `addr` on the list of the accounts read only. One whose key is held is refused. */
    method Observe(addr: Address, disk: bool) returns (r: Result<bool, CoreError>)
      modifies observed
      ensures old(Rooted()) ==> Rooted()
      ensures r ==
                if !OneNameEach(vault.files) then Err(InVault(Corrupt))
                else if HoldsKey(vault.files, addr) then Err(AlreadyManaged)
                else if !Observed.Readable(old(observed.file)) then Err(InList(Observed.NotAList))
                else if addr in Observed.Listed(old(observed.file)) then Ok(false)
                else if disk then Ok(true)
                else Err(InList(Observed.Io))
      ensures Observed.Readable(old(observed.file)) ==> Observed.Readable(observed.file)
      ensures Observed.Listed(observed.file) ==
                Observed.Listed(old(observed.file)) + if r == Ok(true) then {addr} else {}
    {
      var managed := Manages(addr);
      if managed.Err? {
        return Err(managed.error);
      }
      if managed.value {
        return Err(AlreadyManaged);
      }
      var added := observed.Add(addr, disk);
      match added {
        case Ok(new_) => return Ok(new_);
        case Err(error) => return Err(InList(error));
      }
    }

    /** Take `addr` off the list of the accounts read only, and drop what this session read of it. */
    method StopObserving(addr: Address, disk: bool) returns (error: Option<CoreError>)
      requires Valid()
      modifies observed, this`read, this`dropped
      ensures Valid()
      ensures old(Steady()) ==> (Steady() <==> error.Some? || !RevokesAny(View(old(Session()), addr).staged))
      ensures old(Steady()) && old(Rooted()) ==> Steady()
      ensures old(Rooted()) ==> Rooted()
      ensures error ==
                if !Observed.Readable(old(observed.file)) then Some(InList(Observed.NotAList))
                else if addr !in Observed.Listed(old(observed.file)) then Some(UnknownAccount)
                else if disk then None
                else Some(InList(Observed.Io))
      ensures Observed.Readable(old(observed.file)) ==> Observed.Readable(observed.file)
      ensures Observed.Listed(observed.file) ==
                Observed.Listed(old(observed.file)) - if error.None? then {addr} else {}
      ensures
        var before := View(old(Session()), addr);
        if error.Some? then Session() == old(Session())
        else
          && Only(old(Session()), Session(), addr, AccountDevice.Unread(before))
          && (Stranded(View(Session(), addr)) <==> RevokesAny(before.staged))
          && View(Session(), addr) == Device(before.held, false, None, before.staged, 0)
    {
      var removed := observed.Remove(addr, disk);
      if removed.Err? {
        return Some(InList(removed.error));
      }
      if !removed.value {
        return Some(UnknownAccount);
      }
      Unread(addr);
      UnreadKeeps(old(Session()), Session(), addr);
      error := None;
    }

    /** Drop what was read of `addr`, so nothing is shown of it until it is read again. */
    method Unread(addr: Address)
      modifies this`read, this`dropped
      ensures Tidy(old(Session())) ==> Tidy(Session())
      ensures
        Only(old(Session()), Session(), addr, AccountDevice.Unread(View(old(Session()), addr)))
    {
      read := read - {addr};
      dropped := dropped - {addr};
    }

    /** Take a generated key in. Where it is sealed, the session keeps it open. */
    method CreateAccount(key: SigningKey, password: Option<string>, disk: bool) returns (r: Result<Address, CoreError>)
      requires Valid()
      modifies vault, this`unlocked
      ensures Valid()
      ensures r == match CreateError(old(vault.files), key.address, password, disk)
                   case Some(error) => Err(InVault(error))
                   case None => Ok(key.address)
      ensures r.Err? ==> vault.files == old(vault.files) && unlocked == old(unlocked)
      ensures r.Ok? ==>
                && OneNameEach(vault.files) && HoldsKey(vault.files, key.address)
                && vault.files.Keys == old(vault.files).Keys + {PathOf(key.address, password.Some?)}
                && (forall name :: name in old(vault.files) ==> vault.files[name] == old(vault.files)[name])
                && OpenError(vault.files, key.address, password).None?
                && vault.files[PathOf(key.address, password.Some?)].key == key
                && unlocked == if password.Some? then old(unlocked)[key.address := key] else old(unlocked)
      ensures old(Rooted()) ==> (Rooted() <==> r.Err? || key.address !in Observed.Listed(observed.file))
    {
      var created := vault.Create(key, password, disk);
      if created.Err? {
        return Err(InVault(created.error));
      }
      if password.Some? {
        unlocked := unlocked[key.address := key];
      }
      if old(Rooted()) {
        TakenIn(old(vault.files), vault.files, observed.file, staged.Keys, old(unlocked).Keys,
                key.address, password.Some?);
        assert unlocked.Keys == old(unlocked).Keys + if password.Some? then {key.address} else {};
      }
      r := Ok(key.address);
    }

    /**
     * Take an account from the secret its holder exported, and out of the observed ones.
     * `key` is none where the text is no secret; `listDisk` says whether the list is written.
     * The account is in both groups exactly where it was observed and the list was not written.
     */
    method ImportAccount(key: Option<SigningKey>, password: Option<string>, disk: bool, listDisk: bool)
      returns (r: Result<Address, CoreError>)
      requires Valid()
      modifies vault, observed, this`unlocked
      ensures Valid()
      ensures r ==
                if key.None? then Err(NotAKey)
                else
                  var (addr, list) := (key.value.address, old(observed.file));
                  match CreateError(old(vault.files), addr, password, disk)
                  case Some(error) => Err(InVault(error))
                  case None =>
                    if !Observed.Readable(list) then Err(InList(Observed.NotAList))
                    else if addr in Observed.Listed(list) && !listDisk then Err(InList(Observed.Io))
                    else Ok(addr)
      ensures forall name :: name in old(vault.files) ==>
                name in vault.files && vault.files[name] == old(vault.files)[name]
      ensures if key.None? || CreateError(old(vault.files), key.value.address, password, disk).Some? then
                vault.files == old(vault.files) && unlocked == old(unlocked)
              else
                && vault.files.Keys == old(vault.files).Keys + {PathOf(key.value.address, password.Some?)}
                && OpenError(vault.files, key.value.address, password).None?
                && vault.files[PathOf(key.value.address, password.Some?)].key == key.value
                && unlocked == if password.Some? then old(unlocked)[key.value.address := key.value] else old(unlocked)
      ensures Observed.Readable(old(observed.file)) ==> Observed.Readable(observed.file)
      ensures Observed.Listed(observed.file) ==
                Observed.Listed(old(observed.file)) - if r.Ok? then {key.value.address} else {}
      ensures old(Rooted()) ==>
                (Rooted() <==>
                 !(&& key.Some? && CreateError(old(vault.files), key.value.address, password, disk).None?
                   && key.value.address in Observed.Listed(old(observed.file)) && !listDisk))
    {
      if key.None? {
        return Err(NotAKey);
      }
      var created := CreateAccount(key.value, password, disk);
      if created.Err? {
        return created;
      }
      var removed := observed.Remove(key.value.address, listDisk);
      if removed.Err? {
        return Err(InList(removed.error));
      }
      if old(Rooted()) {
        MovedOver(old(vault.files), vault.files, old(observed.file), observed.file, staged.Keys,
                  old(unlocked).Keys, key.value.address, password.Some?);
        assert unlocked.Keys == old(unlocked).Keys + if password.Some? then {key.value.address} else {};
      }
      r := created;
    }

    /** The account's own secret. Asks for its password even where the account is unlocked. */
    method ExportAccount(addr: Address, password: Option<string>) returns (r: Result<SigningKey, CoreError>)
      ensures r.Ok? ==> r.value.address == addr && HoldsKey(vault.files, addr)
      ensures r.Ok? ==>
                var name := PathOf(addr, password.Some?);
                name in vault.files && !vault.files[name].Foreign? && r.value == vault.files[name].key
      ensures
        match ManagedError(vault.files, observed.file, addr)
        case Some(error) => r == Err(error)
        case None =>
          match OpenError(vault.files, addr, password)
          case Some(error) => r == Err(InVault(error))
          case None => r.Ok?
    {
      var refused := RequireManaged(addr);
      if refused.Some? {
        return Err(refused.value);
      }
      var found := vault.Open(addr, password);
      match found {
        case Ok(key) => return Ok(key);
        case Err(error) => return Err(InVault(error));
      }
    }

    /** Keep the key of `addr` open for the rest of the session, if `password` opens it. */
    method Unlock(addr: Address, password: string) returns (error: Option<CoreError>)
      requires Valid()
      modifies this`unlocked
      ensures Valid() && (old(Rooted()) ==> Rooted())
      ensures error ==
                match ManagedError(vault.files, observed.file, addr)
                case Some(e) => Some(e)
                case None =>
                  match OpenError(vault.files, addr, Some(password))
                  case Some(e) => Some(InVault(e))
                  case None => None
      ensures if error.Some? then unlocked == old(unlocked)
              else
                var name := PathOf(addr, true);
                && name in vault.files && !vault.files[name].Foreign?
                && unlocked == old(unlocked)[addr := vault.files[name].key]
    {
      error := RequireManaged(addr);
      if error.Some? {
        return;
      }
      var found := vault.Open(addr, Some(password));
      if found.Err? {
        return Some(InVault(found.error));
      }
      unlocked := unlocked[addr := found.value];
    }

    /** Delete the key, and with it all this session has of the account but the resolver's log. */
    method ForgetAccount(addr: Address, disk: bool) returns (error: Option<CoreError>)
      requires Valid()
      modifies vault, this`unlocked, this`staged, this`read, this`dropped
      ensures Valid() && (old(Steady()) ==> Steady()) && (old(Rooted()) ==> Rooted())
      ensures error ==
                match ManagedError(old(vault.files), observed.file, addr)
                case Some(e) => Some(e)
                case None => if disk then None else Some(InVault(VaultError.Io))
      ensures error.Some? ==>
                vault.files == old(vault.files) && unlocked == old(unlocked) && Session() == old(Session())
      ensures error.None? ==>
                && !HoldsKey(vault.files, addr)
                && vault.files == old(vault.files) - {PathOf(addr, true), PathOf(addr, false)}
                && unlocked == old(unlocked) - {addr}
                && Only(old(Session()), Session(), addr, Forget(View(old(Session()), addr)))
                && View(Session(), addr) == Device(View(old(Session()), addr).held, false, None, [], 0)
                && Record(View(Session(), addr)).None? && Sound(View(Session(), addr))
    {
      error := RequireManaged(addr);
      if error.Some? {
        return;
      }
      var forgotten := vault.Forget(addr, disk);
      if forgotten.Err? {
        return Some(InVault(forgotten.error));
      }
      Dropped(old(vault.files), vault.files, observed.file, staged.Keys, unlocked.Keys, addr);
      unlocked := unlocked - {addr};
      Drop(addr);
      ThrowingAwayKeeps(old(Session()), Session(), addr);
    }

    method Drop(addr: Address)
      modifies this`staged, this`read, this`dropped
      ensures staged == old(staged) - {addr}
      ensures Tidy(old(Session())) ==> Tidy(Session())
      ensures Only(old(Session()), Session(), addr, Forget(View(old(Session()), addr)))
    {
      staged := staged - {addr};
      read := read - {addr};
      dropped := dropped - {addr};
    }

    // ---------- What is shown ----------

    /** The rows of a log, each live name but the one in force marked with the name that superseded it. */
    method Rows(log: Log) returns (rows: seq<Row>)
      ensures rows == RowsShown(log)
    {
      if AccountLog.Valid(log) {
        rows := MarkEach(RowsFromDraft(log), log);
      } else {
        rows := MarkEach(RowsByContext(log, |log|), log);
      }
    }

    method Draw(addr: Address, held: Option<StoredAccount>) returns (state: State)
      ensures Draws(state, View(Session(), addr))
      ensures state.managed == held.Some? && state.sealed == (held.Some? && held.value.protected)
      ensures state.locked == (state.sealed && addr !in unlocked)
    {
      var d := View(Session(), addr);
      var sealed := held.Some? && held.value.protected;
      var entries := Rows(LogOf(d));
      state := StateOf(d, held.Some?, sealed, sealed && addr !in unlocked, entries);
      StateDraws(d, held.Some?, sealed, sealed && addr !in unlocked, entries);
    }

    /** All of one account, from what is held. Asks no store. */
    method Show(addr: Address) returns (r: Result<State, CoreError>)
      ensures
        match KnownError(vault.files, observed.file, addr)
        case Some(error) => r == Err(error)
        case None =>
          && r.Ok? && Draws(r.value, View(Session(), addr))
          && r.value.managed == HoldsKey(vault.files, addr)
          && r.value.sealed == (PathOf(addr, true) in vault.files)
          && r.value.locked == (r.value.sealed && addr !in unlocked)
    {
      var held := Entry(addr);
      if held.Err? {
        return Err(held.error);
      }
      if held.value.None? {
        var observes := Observes(addr);
        if observes.Err? {
          return Err(observes.error);
        }
        if !observes.value {
          return Err(UnknownAccount);
        }
      }
      var state := Draw(addr, held.value);
      r := Ok(state);
    }

    function Summarize(addr: Address, managed: bool, sealed: bool): Summary
      reads this
    {
      var d := View(Session(), addr);
      Summary(addr, managed, sealed, sealed && addr !in unlocked, d.answered, LiveDisplayName(LogOf(d)),
              if managed then |Plan(d.staged)| else 0, d.problem)
    }

    /** What a row of the roster tells beside its address and its group. */
    predicate RowIsTrue(row: Summary)
      reads this, vault
    {
      var d := View(Session(), row.address);
      && (row.sealed <==> row.managed && PathOf(row.address, true) in vault.files)
      && (row.locked <==> row.managed && PathOf(row.address, true) in vault.files && row.address !in unlocked)
      && row.resolved == d.answered && row.problem == d.problem
      && row.pending == (if row.managed then |d.staged| else 0)
      && (row.displayName.None? ==> forall i: nat :: i < |LogOf(d)| ==> !InForce(LogOf(d), i))
      && (row.displayName.Some? ==>
            exists i: nat :: i < |LogOf(d)| && InForce(LogOf(d), i) && LogOf(d)[i].data.text == row.displayName.value)
    }

    lemma SummaryIsTrue(addr: Address, managed: bool)
      ensures RowIsTrue(Summarize(addr, managed, managed && PathOf(addr, true) in vault.files))
    {
      var d := View(Session(), addr);
      RevocationsComeFirst(d.staged);
      LastNameInForce(LogOf(d));
    }

    method HeldRows(held: seq<StoredAccount>) returns (rows: seq<Summary>)
      ensures |rows| == |held|
      ensures forall i :: 0 <= i < |rows| ==> rows[i] == Summarize(held[i].addr, true, held[i].protected)
    {
      rows := [];
      for i := 0 to |held|
        invariant |rows| == i
        invariant forall k :: 0 <= k < i ==> rows[k] == Summarize(held[k].addr, true, held[k].protected)
      {
        rows := rows + [Summarize(held[i].addr, true, held[i].protected)];
      }
    }

    method ObservedRows(list: seq<Address>) returns (rows: seq<Summary>)
      ensures |rows| == |list|
      ensures forall i :: 0 <= i < |rows| ==> rows[i] == Summarize(list[i], false, false)
    {
      rows := [];
      for i := 0 to |list|
        invariant |rows| == i
        invariant forall k :: 0 <= k < i ==> rows[k] == Summarize(list[k], false, false)
      {
        rows := rows + [Summarize(list[i], false, false)];
      }
    }

    /** The roster: both groups in one list, no address twice, what can be written before what cannot. */
    method Accounts() returns (r: Result<seq<Summary>, CoreError>)
      ensures
        if !OneNameEach(vault.files) then r == Err(InVault(Corrupt))
        else if !Observed.Readable(observed.file) then r == Err(InList(Observed.NotAList))
        else r.Ok? && IsRoster(r.value, vault.files, observed.file)
      ensures r.Ok? ==> forall i :: 0 <= i < |r.value| ==> RowIsTrue(r.value[i])
    {
      var held := vault.Accounts();
      if held.Err? {
        return Err(InVault(held.error));
      }
      var list := observed.List();
      if list.Err? {
        return Err(InList(list.error));
      }
      var first := HeldRows(held.value);
      var unheld := Unheld(held.value, list.value);
      var others := ObservedRows(unheld);
      RosterOf(held.value, unheld, first, others, vault.files, observed.file);
      forall i | 0 <= i < |first|
        ensures held.value[i].protected <==> PathOf(first[i].address, true) in vault.files
      {
        ListedAs(vault.files, held.value, i);
      }
      r := Ok(first + others);
      forall i | 0 <= i < |r.value|
        ensures RowIsTrue(r.value[i])
      {
        SummaryIsTrue(r.value[i].address, r.value[i].managed);
      }
    }
  }
}
