/** The log as the screen lists it: one row an entry, and the rows the next publish will add. */
module LogRows {
  import opened Basics
  import opened AccountLog
  import opened Codec
  import opened Profile
  import opened Staging
  import opened Publishing

  datatype Kind = InstallationRow | KeyRow | DisplayNameRow | TextRow | RevocationRow | OtherRow

  /** What a row's text is made of. */
  datatype Shown = KeyShown(key: Key) | TextShown(text: Bytes) | EntryShown(index: nat) | OpcodeShown(opcode: Byte)

  datatype Row = Row(
    index: nat,
    kind: Kind,
    context: Option<Bytes>,
    value: Shown,
    live: bool,
    target: Option<nat>,
    bytes: int,
    supersededBy: Option<nat>)

  function Describe(e: Entry): (Kind, Shown) {
    match e
    case Unknown(opcode, _) => (OtherRow, OpcodeShown(opcode))
    case Remove(index) => (RevocationRow, EntryShown(index))
    case Add(context, Ed25519Key(key)) =>
      (if context == SIGNER_CONTEXT then InstallationRow else KeyRow, KeyShown(key))
    case Add(context, Text(text)) =>
      (if context == DISPLAY_NAME_CONTEXT then DisplayNameRow else TextRow, TextShown(text))
  }

  // ---------- Sizes ----------

  /** How long a payload these entries alone would make, the domain's own length where they make none. */
  function EncodedSize(entries: seq<Entry>): int {
    match PushAll([], entries)
    case Err(_) => DOMAIN_BYTES
    case Ok(draft) => if EncodeError(draft).None? then PayloadBytes(draft) else DOMAIN_BYTES
  }

  const EMPTY_NAME: Entry := Add(DISPLAY_NAME_CONTEXT, Text([]))

  function RemoveCost(): int {
    EncodedSize([EMPTY_NAME, Remove(0)]) - EncodedSize([EMPTY_NAME])
  }

  /** What one entry costs the byte budget, measured rather than computed. */
  function EntrySize(e: Entry): int {
    if e.Remove? then RemoveCost() else EncodedSize([e]) - DOMAIN_BYTES
  }

  lemma ValidFromEmpty(entries: seq<Entry>)
    requires Valid(entries)
    ensures PushAll([], entries) == Ok(entries)
  {
    assert [] + entries == entries;
    PushAllIsValidity([], entries);
  }

  lemma SizeOfValid(entries: seq<Entry>)
    requires Valid(entries) && AllEncodable(entries) && PayloadBytes(entries) <= MAX_PAYLOAD_BYTES
    ensures EncodedSize(entries) == PayloadBytes(entries)
  {
    ValidFromEmpty(entries);
  }

  lemma BytesOfOne(e: Entry)
    ensures PayloadBytes([e]) == DOMAIN_BYTES + FrameBytes(e)
  {
    assert [e][..0] == [];
  }

  lemma BytesOfTwo(e: Entry, f: Entry)
    ensures PayloadBytes([e, f]) == DOMAIN_BYTES + FrameBytes(e) + FrameBytes(f)
  {
    BytesOfOne(e);
    assert [e, f][..1] == [e];
  }

  lemma ValidAlone(e: Entry)
    requires Encodable(e) && e.Add?
    ensures Valid([e])
  {
    assert Pushable([], e);
    assert [e][..0] == [];
  }

  lemma ValidThenRemoved(e: Entry)
    requires Valid([e]) && e.Add?
    ensures Valid([e, Remove(0)])
  {
    assert Live([e], 0);
    ValidPush([e], Remove(0));
    assert [e] + [Remove(0)] == [e, Remove(0)];
  }

  lemma SizeOfName()
    ensures EncodedSize([EMPTY_NAME]) == DOMAIN_BYTES + 24
  {
    FrameCost(SetDisplayName([]));
    ValidAlone(EMPTY_NAME);
    BytesOfOne(EMPTY_NAME);
    SizeOfValid([EMPTY_NAME]);
  }

  lemma SizeOfNameAndRemoval()
    ensures EncodedSize([EMPTY_NAME, Remove(0)]) == DOMAIN_BYTES + 31
  {
    FrameCost(SetDisplayName([]));
    ValidAlone(EMPTY_NAME);
    ValidThenRemoved(EMPTY_NAME);
    FrameCost(Revoke(0));
    BytesOfTwo(EMPTY_NAME, Remove(0));
    SizeOfValid([EMPTY_NAME, Remove(0)]);
  }

  lemma SizeOfAdd(e: Entry)
    requires Encodable(e) && e.Add?
    ensures EntrySize(e) == FrameBytes(e)
  {
    BytesOfOne(e);
    ValidAlone(e);
    SizeOfValid([e]);
  }

  /** The size measured for an entry is the size of its frame, wherever it stands in a log. */
  lemma SizeIsFrame(e: Entry)
    requires Encodable(e) && !e.Unknown?
    ensures EntrySize(e) == FrameBytes(e)
  {
    if e.Add? {
      SizeOfAdd(e);
    } else {
      SizeOfName();
      SizeOfNameAndRemoval();
    }
  }

  /** The prices the screen quotes. */
  lemma WhatTheFormatCharges(edit: Edit)
    requires Authored(edit)
    ensures EntrySize(EntryOf(edit)) ==
              match edit
              case AddInstallation(_) => 48
              case SetDisplayName(name) => 24 + |name|
              case Revoke(_) => 7
  {
    FrameCost(edit);
    SizeIsFrame(EntryOf(edit));
  }

  // ---------- Rows ----------

  function RowFrom(index: nat, e: Entry, live: bool): Row {
    var (kind, value) := Describe(e);
    Row(index, kind,
        if e.Add? then Some(e.context) else None,
        value, live,
        if e.Remove? then Some(e.index) else None,
        EntrySize(e), None)
  }

  /** What a row tells of its entry, told from the entry alone. */
  predicate Tells(row: Row, e: Entry) {
    && row.target == (if e.Remove? then Some(e.index) else None)
    && row.context == (if e.Add? then Some(e.context) else None)
    && (row.kind.InstallationRow? <==> e.Add? && e.data.Ed25519Key? && e.context == SIGNER_CONTEXT)
    && (row.kind.KeyRow? <==> e.Add? && e.data.Ed25519Key? && e.context != SIGNER_CONTEXT)
    && (row.kind.DisplayNameRow? <==> e.Add? && e.data.Text? && e.context == DISPLAY_NAME_CONTEXT)
    && (row.kind.TextRow? <==> e.Add? && e.data.Text? && e.context != DISPLAY_NAME_CONTEXT)
    && (row.kind.RevocationRow? <==> e.Remove?)
    && (row.kind.OtherRow? <==> e.Unknown?)
    && (e.Add? && e.data.Ed25519Key? ==> row.value == KeyShown(e.data.key))
    && (e.Add? && e.data.Text? ==> row.value == TextShown(e.data.text))
    && (e.Remove? ==> row.value == EntryShown(e.index))
    && (e.Unknown? ==> row.value == OpcodeShown(e.opcode))
  }

  function RowsFromDraft(log: Log): (rows: seq<Row>)
    ensures |rows| == |log|
  {
    seq(|log|, i requires 0 <= i < |log| => RowFrom(i, log[i], Live(log, i)))
  }

  /** The planned entries as rows, numbered from `base`. */
  function PendingRows(planned: seq<Entry>, base: nat): (rows: seq<Row>)
    ensures |rows| == |planned|
  {
    seq(|planned|, i requires 0 <= i < |planned| => RowFrom(base + i, planned[i], !planned[i].Remove?))
  }

  function Reversed(names: seq<Name>): (r: seq<Name>)
    ensures |r| == |names|
  {
    seq(|names|, i requires 0 <= i < |names| => names[|names| - 1 - i])
  }

  function PreviousNames(log: Log): seq<Name> {
    var names := LiveDisplayNames(log);
    if names == [] then [] else Reversed(names[..|names| - 1])
  }

  /** A row as it stands beside the names: marked where it is one that came before the name in force. */
  function Marked(row: Row, log: Log): Row {
    var names := LiveDisplayNames(log);
    if names != [] && exists alias :: alias in PreviousNames(log) && alias.index == row.index then
      row.(supersededBy := Some(names[|names| - 1].index))
    else row
  }

  function MarkedRows(rows: seq<Row>, log: Log): (marked: seq<Row>)
    ensures |marked| == |rows|
  {
    seq(|rows|, i requires 0 <= i < |rows| => Marked(rows[i], log))
  }

  /** The rows of a log this build reads. */
  function Entries(log: Log): (rows: seq<Row>)
    ensures |rows| == |log|
  {
    MarkedRows(RowsFromDraft(log), log)
  }

  /** A live entry under one of the two contexts edited here. */
  predicate SelectedByContext(log: Log, i: nat) {
    Live(log, i) && (log[i].context == SIGNER_CONTEXT || log[i].context == DISPLAY_NAME_CONTEXT)
  }

  /** What the first `n` entries of a log with an unreadable one still say. */
  function RowsByContext(log: Log, n: nat): seq<Row>
    requires n <= |log|
  {
    if n == 0 then []
    else RowsByContext(log, n - 1) + if SelectedByContext(log, n - 1) then [RowFrom(n - 1, log[n - 1], true)] else []
  }

  lemma {:induction false} RowsByContextAreSelected(log: Log, n: nat)
    requires n <= |log|
    ensures forall k :: 0 <= k < |RowsByContext(log, n)| ==>
              var row := RowsByContext(log, n)[k];
              row.index < n && SelectedByContext(log, row.index) && row == RowFrom(row.index, log[row.index], true)
    ensures forall j, k :: 0 <= j < k < |RowsByContext(log, n)| ==>
              RowsByContext(log, n)[j].index < RowsByContext(log, n)[k].index
  {
    if n > 0 {
      RowsByContextAreSelected(log, n - 1);
    }
  }

  lemma {:induction false} SelectedHaveRows(log: Log, n: nat, i: nat)
    requires i < n <= |log| && SelectedByContext(log, i)
    ensures RowFrom(i, log[i], true) in RowsByContext(log, n)
  {
    if i < n - 1 {
      SelectedHaveRows(log, n - 1, i);
    } else {
      assert RowsByContext(log, n)[|RowsByContext(log, n - 1)|] == RowFrom(i, log[i], true);
    }
  }

  /** The rows by context are exactly the live entries of the two contexts edited here, each once, in log order. */
  lemma RowsByContextAreTheSelected(log: Log)
    ensures
      var rows := RowsByContext(log, |log|);
      && (forall k :: 0 <= k < |rows| ==>
            && rows[k].index < |log| && SelectedByContext(log, rows[k].index)
            && rows[k] == RowFrom(rows[k].index, log[rows[k].index], true))
      && (forall j, k :: 0 <= j < k < |rows| ==> rows[j].index < rows[k].index)
      && (forall i: nat :: SelectedByContext(log, i) ==> RowFrom(i, log[i], true) in rows)
    ensures forall i: nat :: SelectedByContext(log, i) <==>
              && Live(log, i)
              && (log[i].context == SIGNER_CONTEXT || log[i].context == DISPLAY_NAME_CONTEXT)
  {
    RowsByContextAreSelected(log, |log|);
    forall i: nat | SelectedByContext(log, i)
      ensures RowFrom(i, log[i], true) in RowsByContext(log, |log|)
    {
      SelectedHaveRows(log, |log|, i);
    }
  }

  predicate AllByContext(log: Log) {
    forall i: nat :: i < |log| ==> SelectedByContext(log, i)
  }

  /** There are as many rows by context as entries only where every entry is so selected. */
  lemma {:induction false} RowsByContextCount(log: Log, n: nat)
    requires n <= |log|
    ensures |RowsByContext(log, n)| <= n
    ensures |RowsByContext(log, n)| == n <==> forall i: nat :: i < n ==> SelectedByContext(log, i)
  {
    if n > 0 {
      RowsByContextCount(log, n - 1);
    }
  }

  /**
   * Pending rows numbered after the rows by context carry the indices they would land at
   * exactly where nothing is pending or every entry of the log has a row; so an entry this
   * build cannot read puts every pending row at a wrong index.
   */
  lemma PendingAfterRowsByContext(log: Log, staged: seq<Edit>)
    ensures PendingRows(Plan(staged), |RowsByContext(log, |log|)|) == PendingRows(Plan(staged), |log|) <==>
              staged == [] || AllByContext(log)
    ensures (exists i :: 0 <= i < |log| && log[i].Unknown?) ==> !AllByContext(log)
  {
    var base := |RowsByContext(log, |log|)|;
    RowsByContextCount(log, |log|);
    RevocationsComeFirst(staged);
    if staged != [] {
      assert PendingRows(Plan(staged), base)[0].index == base;
      assert PendingRows(Plan(staged), |log|)[0].index == |log|;
    }
    if i :| 0 <= i < |log| && log[i].Unknown? {
      assert !SelectedByContext(log, i);
    }
  }

  /** Previous names run backwards from the one before the name in force. */
  lemma PreviousNameAt(log: Log, k: nat)
    requires k < |PreviousNames(log)|
    ensures |LiveDisplayNames(log)| == |PreviousNames(log)| + 1
    ensures PreviousNames(log)[k] == LiveDisplayNames(log)[|PreviousNames(log)| - 1 - k]
  {
  }

  lemma PreviousNamesDescend(log: Log, j: nat, k: nat)
    requires j < k < |PreviousNames(log)|
    ensures PreviousNames(log)[j].index > PreviousNames(log)[k].index
  {
    NamesUpToAreTheLiveOnes(log, |log|);
    PreviousNameAt(log, j);
    PreviousNameAt(log, k);
  }

  lemma PreviousNameIsLive(log: Log, name: Name)
    requires name in PreviousNames(log)
    ensures LiveName(log, name.index) && !InForce(log, name.index) && name.value == log[name.index].data.text
  {
    var k :| 0 <= k < |PreviousNames(log)| && PreviousNames(log)[k] == name;
    PreviousNameAt(log, k);
    NamesUpToAreTheLiveOnes(log, |log|);
    LastNameInForce(log);
  }

  lemma OtherNamesArePrevious(log: Log, i: nat)
    requires LiveName(log, i) && !InForce(log, i)
    ensures Name(i, log[i].data.text) in PreviousNames(log)
  {
    var names, name := LiveDisplayNames(log), Name(i, log[i].data.text);
    assert name in names by {
      NamesUpToAreTheLiveOnes(log, |log|);
    }
    var k :| 0 <= k < |names| && names[k] == name;
    assert k != |names| - 1 by {
      LastNameInForce(log);
    }
    PreviousNameAt(log, |names| - 2 - k);
  }

  /** The previous names are exactly the live names other than the one in force, newest first. */
  lemma PreviousNamesAreTheOthers(log: Log)
    ensures forall j, k :: 0 <= j < k < |PreviousNames(log)| ==>
              PreviousNames(log)[j].index > PreviousNames(log)[k].index
    ensures forall name :: name in PreviousNames(log) ==>
              LiveName(log, name.index) && !InForce(log, name.index) && name.value == log[name.index].data.text
    ensures forall i: nat :: LiveName(log, i) && !InForce(log, i) ==>
              Name(i, log[i].data.text) in PreviousNames(log)
  {
    forall j, k | 0 <= j < k < |PreviousNames(log)|
      ensures PreviousNames(log)[j].index > PreviousNames(log)[k].index
    {
      PreviousNamesDescend(log, j, k);
    }
    forall name | name in PreviousNames(log)
      ensures LiveName(log, name.index) && !InForce(log, name.index) && name.value == log[name.index].data.text
    {
      PreviousNameIsLive(log, name);
    }
    forall i: nat | LiveName(log, i) && !InForce(log, i)
      ensures Name(i, log[i].data.text) in PreviousNames(log)
    {
      OtherNamesArePrevious(log, i);
    }
  }

  /** A row is marked superseded, and by the name in force, exactly where it is another live name. */
  lemma SupersededRows(log: Log, i: nat, m: nat)
    requires i < |log|
    ensures Entries(log)[i].supersededBy == Some(m) <==> LiveName(log, i) && !InForce(log, i) && InForce(log, m)
    ensures Entries(log)[i] == RowFrom(i, log[i], Live(log, i)).(supersededBy := Entries(log)[i].supersededBy)
  {
    PreviousNamesAreTheOthers(log);
    LastNameInForce(log);
    var names, previous := LiveDisplayNames(log), PreviousNames(log);
    var row := RowsFromDraft(log)[i];
    assert row.index == i && Entries(log)[i] == Marked(row, log);
    if LiveName(log, i) && !InForce(log, i) {
      assert Name(i, log[i].data.text) in previous;
    }
    if InForce(log, m) {
      InForceIsTheName(log, m);
    }
  }

  /** Every row of a readable log is its entry's: numbered as it stands, live as it is, showing what it holds. */
  lemma EntryRowsTell(log: Log, i: nat)
    requires i < |log|
    ensures
      var row := Entries(log)[i];
      && row.index == i && (row.live <==> Live(log, i))
      && (row.target.Some? <==> log[i].Remove?)
      && (forall n: nat :: row.target == Some(n) <==> log[i] == Remove(n))
      && (forall c :: row.context == Some(c) <==> log[i].Add? && log[i].context == c)
      && (forall k :: row.value == KeyShown(k) <==> log[i].Add? && log[i].data == Ed25519Key(k))
      && (forall t :: row.value == TextShown(t) <==> log[i].Add? && log[i].data == Text(t))
      && (forall n: nat :: row.value == EntryShown(n) <==> log[i] == Remove(n))
      && (forall o :: row.value == OpcodeShown(o) <==> log[i].Unknown? && log[i].opcode == o)
      && Tells(row, log[i])
  {
    SupersededRows(log, i, 0);
  }

  /** So is every row of a log shown by context. */
  lemma RowsByContextTell(log: Log, k: nat)
    requires k < |RowsByContext(log, |log|)|
    ensures
      var row := MarkedRows(RowsByContext(log, |log|), log)[k];
      && row.index < |log| && row.live && Live(log, row.index) && Tells(row, log[row.index])
      && (row.kind.InstallationRow? || row.kind.DisplayNameRow? || row.kind.KeyRow? || row.kind.TextRow?)
  {
    RowsByContextAreTheSelected(log);
    var plain := RowsByContext(log, |log|)[k];
    assert MarkedRows(RowsByContext(log, |log|), log)[k] == Marked(plain, log);
  }

  /** And every pending row: numbered on from `base`, live exactly where it adds, and superseded by nothing. */
  lemma PendingRowsTell(plan: seq<Entry>, base: nat, o: nat)
    requires o < |plan|
    ensures
      var row := PendingRows(plan, base)[o];
      && row.index == base + o && (row.live <==> !plan[o].Remove?) && row.supersededBy.None?
      && Tells(row, plan[o])
  {
  }

  // ---------- Bytes ----------

  function TotalBytes(rows: seq<Row>): int {
    if rows == [] then 0 else TotalBytes(rows[..|rows| - 1]) + rows[|rows| - 1].bytes
  }

  lemma {:induction false} TotalBytesIsPayload(rows: seq<Row>, entries: seq<Entry>)
    requires |rows| == |entries|
    requires forall i :: 0 <= i < |rows| ==> rows[i].bytes == FrameBytes(entries[i])
    ensures DOMAIN_BYTES + TotalBytes(rows) == PayloadBytes(entries)
  {
    if rows != [] {
      var n := |rows| - 1;
      TotalBytesIsPayload(rows[..n], entries[..n]);
    }
  }

  lemma ValidIsAuthored(log: Log)
    requires Valid(log)
    ensures forall i :: 0 <= i < |log| ==> Encodable(log[i]) && !log[i].Unknown?
  {
    forall i | 0 <= i < |log|
      ensures Encodable(log[i]) && !log[i].Unknown?
    {
      assert PushableAt(log, i);
    }
  }

  /** The rows of a readable log are priced so that with the domain they add up to its payload. */
  lemma RowsAccountForTheLog(log: Log)
    requires Valid(log)
    ensures AllEncodable(log) && DOMAIN_BYTES + TotalBytes(Entries(log)) == |Payload(log)|
  {
    ValidIsAuthored(log);
    forall i | 0 <= i < |log|
      ensures Entries(log)[i].bytes == FrameBytes(log[i])
    {
      SupersededRows(log, i, 0);
      SizeIsFrame(log[i]);
    }
    TotalBytesIsPayload(Entries(log), log);
    PayloadLength(log);
  }

  lemma PendingRowBytes(plan: seq<Entry>, base: nat, i: nat)
    requires i < |plan| && Encodable(plan[i]) && !plan[i].Unknown?
    ensures PendingRows(plan, base)[i].bytes == FrameBytes(plan[i])
  {
    SizeIsFrame(plan[i]);
  }

  lemma PendingBytes(plan: seq<Entry>, base: nat)
    requires forall i :: 0 <= i < |plan| ==> Encodable(plan[i]) && !plan[i].Unknown?
    ensures DOMAIN_BYTES + TotalBytes(PendingRows(plan, base)) == PayloadBytes(plan)
  {
    var rows := PendingRows(plan, base);
    forall i | 0 <= i < |plan|
      ensures rows[i].bytes == FrameBytes(plan[i])
    {
      PendingRowBytes(plan, base, i);
    }
    TotalBytesIsPayload(rows, plan);
  }

  /** The pending rows are priced at exactly what publishing them adds to the payload. */
  lemma PendingRowsAccountForTheUpdate(log: Log, staged: seq<Edit>)
    requires Valid(log) && WellStaged(log, staged)
    ensures PayloadBytes(log + Plan(staged)) ==
              PayloadBytes(log) + TotalBytes(PendingRows(Plan(staged), |log|))
  {
    var plan := Plan(staged);
    PlanPushes(log, staged);
    ValidIsAuthored(log + plan);
    assert forall i :: 0 <= i < |plan| ==> plan[i] == (log + plan)[|log| + i];
    PendingBytes(plan, |log|);
    PayloadBytesConcat(log, plan);
  }

  // ---------- The preview is the outcome ----------

  /** A plan carries at most one name, so nothing it writes is superseded once it lands. */
  lemma NewNameIsInForce(log: Log, staged: seq<Edit>, i: nat)
    requires Valid(log) && WellStaged(log, staged)
    requires |log| <= i && LiveName(log + Plan(staged), i)
    ensures InForce(log + Plan(staged), i)
  {
    var order := RevokesOf(staged) + AddsOf(staged);
    PlanIsAnOrder(staged);
    WellStagedInAnyOrder(log, staged, order);
    var after := log + Plan(staged);
    DisplayEntry(order[i - |log|]);
    forall j: nat | i < j < |after|
      ensures !LiveName(after, j)
    {
      assert Together(order[i - |log|], order[j - |log|]);
      DisplayEntry(order[j - |log|]);
    }
  }

  lemma RowAsPending(log: Log, plan: seq<Entry>, o: nat)
    requires o < |plan| && !plan[o].Unknown?
    requires Live(log + plan, |log| + o) <==> plan[o].Add?
    ensures RowFrom(|log| + o, (log + plan)[|log| + o], Live(log + plan, |log| + o)) == PendingRows(plan, |log|)[o]
  {
  }

  /** An entry written stands where its row said, and is live exactly where it adds. */
  lemma EntryAsPlanned(log: Log, staged: seq<Edit>, o: nat)
    requires Valid(log) && WellStaged(log, staged) && o < |Plan(staged)|
    ensures !Plan(staged)[o].Unknown?
    ensures Live(log + Plan(staged), |log| + o) <==> Plan(staged)[o].Add?
  {
    PlanPushes(log, staged);
    ValidIsAuthored(log + Plan(staged));
    assert (log + Plan(staged))[|log| + o] == Plan(staged)[o];
    PlanEffect(log, staged, |log| + o);
  }

  lemma PreviewRow(log: Log, staged: seq<Edit>, o: nat)
    requires Valid(log) && WellStaged(log, staged) && o < |Plan(staged)|
    ensures Entries(log + Plan(staged))[|log| + o] == PendingRows(Plan(staged), |log|)[o]
  {
    EntryAsPlanned(log, staged, o);
    UnsupersededRow(log, staged, |log| + o);
    RowAsPending(log, Plan(staged), o);
  }

  /** The rows listed as pending are the rows the log gains, each one alike in everything it shows. */
  lemma PreviewIsTheOutcome(log: Log, staged: seq<Edit>)
    requires Valid(log) && WellStaged(log, staged)
    ensures |Entries(log + Plan(staged))| == |log| + |staged|
    ensures Entries(log + Plan(staged))[|log|..] == PendingRows(Plan(staged), |log|)
  {
    var n, rows, pending := |log|, Entries(log + Plan(staged)), PendingRows(Plan(staged), |log|);
    PlanEffect(log, staged, 0);
    forall o | 0 <= o < |pending|
      ensures rows[n + o] == pending[o]
    {
      PreviewRow(log, staged, o);
    }
    SuffixIs(rows, n, pending);
  }

  lemma UnsupersededRow(log: Log, staged: seq<Edit>, i: nat)
    requires Valid(log) && WellStaged(log, staged) && |log| <= i < |log + Plan(staged)|
    ensures
      var after := log + Plan(staged);
      Entries(after)[i] == RowFrom(i, after[i], Live(after, i))
  {
    var after := log + Plan(staged);
    if LiveName(after, i) {
      NewNameIsInForce(log, staged, i);
    }
    var m := match Entries(after)[i].supersededBy case Some(m) => m case None => 0;
    SupersededRows(after, i, m);
  }
}
