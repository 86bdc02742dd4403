/** Edits waiting for the next publish, and the update they are planned into. */
module Staging {
  import opened Basics
  import opened AccountLog
  import opened Profile

  const MAX_DISPLAY_NAME_BYTES := 64

  datatype Edit =
    | AddInstallation(key: Key)
    | SetDisplayName(name: Bytes)
    | Revoke(index: nat)

  /** The entry that carries an edit out. */
  function EntryOf(edit: Edit): Entry {
    match edit
    case AddInstallation(key) => Add(SIGNER_CONTEXT, Ed25519Key(key))
    case SetDisplayName(name) => Add(DISPLAY_NAME_CONTEXT, Text(name))
    case Revoke(index) => Remove(index)
  }

  /** The entries of `edits` in the order they stand. */
  function Entries(edits: seq<Edit>): (entries: seq<Entry>)
    ensures |entries| == |edits|
  {
    seq(|edits|, i requires 0 <= i < |edits| => EntryOf(edits[i]))
  }

  function RevokesOf(staged: seq<Edit>): seq<Edit> {
    if staged == [] then []
    else
      var n := |staged| - 1;
      RevokesOf(staged[..n]) + if staged[n].Revoke? then [staged[n]] else []
  }

  function AddsOf(staged: seq<Edit>): seq<Edit> {
    if staged == [] then []
    else
      var n := |staged| - 1;
      AddsOf(staged[..n]) + if staged[n].Revoke? then [] else [staged[n]]
  }

  /** The entries a publish of `staged` writes, in their order: first those that revoke. */
  function Plan(staged: seq<Edit>): seq<Entry> {
    Entries(RevokesOf(staged)) + Entries(AddsOf(staged))
  }

  /** Whether the edit is still to be made on the log. */
  predicate Keeps(log: Log, edit: Edit) {
    match edit
    case Revoke(index) => Live(log, index)
    case AddInstallation(key) => !KeyLive(log, key)
    case SetDisplayName(name) => LiveDisplayName(log) != Some(name)
  }

  /** The staged edits a read of `log` leaves, in their order. */
  function Settled(log: Log, staged: seq<Edit>): seq<Edit> {
    if staged == [] then []
    else
      var n := |staged| - 1;
      Settled(log, staged[..n]) + if Keeps(log, staged[n]) then [staged[n]] else []
  }

  /** An edit this app can have staged at all: its index is 32 bits wide, its name short. */
  predicate Authored(edit: Edit) {
    match edit
    case Revoke(index) => index < 0x1_0000_0000
    case SetDisplayName(name) => |name| <= MAX_DISPLAY_NAME_BYTES
    case AddInstallation(_) => true
  }

  /** Two edits that may wait side by side: not the same one, and not two names. */
  predicate Together(a: Edit, b: Edit) {
    a != b && !(a.SetDisplayName? && b.SetDisplayName?)
  }

  predicate Distinct(staged: seq<Edit>) {
    forall i, j :: 0 <= i < j < |staged| ==> Together(staged[i], staged[j])
  }

  /** Whether a revocation is among them. */
  predicate RevokesAny(staged: seq<Edit>) {
    exists edit :: edit in staged && edit.Revoke?
  }

  /** What every staged list is, relative to the log it was staged or settled on. */
  predicate WellStaged(log: Log, staged: seq<Edit>) {
    && Distinct(staged)
    && (forall edit :: edit in staged ==> Authored(edit) && Keeps(log, edit))
  }

  /** What an edit was staged for. */
  predicate Holds(log: Log, edit: Edit) {
    match edit
    case Revoke(index) => index < |log| && !Live(log, index)
    case AddInstallation(key) => KeyLive(log, key)
    case SetDisplayName(name) => LiveDisplayName(log) == Some(name)
  }

  // ---------- Settling ----------

  lemma {:induction false} SettledIn(log: Log, staged: seq<Edit>, edit: Edit)
    ensures edit in Settled(log, staged) <==> edit in staged && Keeps(log, edit)
  {
    if staged != [] {
      var n := |staged| - 1;
      SettledIn(log, staged[..n], edit);
      assert staged == staged[..n] + [staged[n]];
    }
  }

  lemma {:induction false} SettledDistinct(log: Log, staged: seq<Edit>)
    requires Distinct(staged)
    ensures Distinct(Settled(log, staged))
  {
    if staged != [] {
      var n := |staged| - 1;
      var before := Settled(log, staged[..n]);
      SettledDistinct(log, staged[..n]);
      forall i | 0 <= i < |before|
        ensures Together(before[i], staged[n])
      {
        SettledIn(log, staged[..n], before[i]);
      }
    }
  }

  /** Whatever a log has become, settling on it leaves a list that is publishable on it. */
  lemma SettledWell(log: Log, staged: seq<Edit>)
    requires Distinct(staged) && forall edit :: edit in staged ==> Authored(edit)
    ensures WellStaged(log, Settled(log, staged))
  {
    SettledDistinct(log, staged);
    forall edit | edit in Settled(log, staged)
      ensures Authored(edit) && Keeps(log, edit)
    {
      SettledIn(log, staged, edit);
    }
  }

  lemma {:induction false} SettledFixed(log: Log, staged: seq<Edit>)
    requires forall edit :: edit in staged ==> Keeps(log, edit)
    ensures Settled(log, staged) == staged
  {
    if staged != [] {
      LastOf(staged);
      SettledFixed(log, staged[..|staged| - 1]);
    }
  }

  lemma {:induction false} SettledNone(log: Log, staged: seq<Edit>)
    requires forall edit :: edit in staged ==> !Keeps(log, edit)
    ensures Settled(log, staged) == []
  {
    if staged != [] {
      SettledNone(log, staged[..|staged| - 1]);
    }
  }

  // ---------- One update, whatever its order ----------

  /** Two entries that may both be pushed on one log. */
  predicate Apart(a: Entry, b: Entry) {
    match (a, b)
    case (Remove(i), Remove(j)) => i != j
    case (Add(_, Ed25519Key(k)), Add(_, Ed25519Key(l))) => k != l
    case _ => true
  }

  /** Entries each pushable on the log by itself and pairwise apart are pushable one after the other. */
  lemma {:induction false} IndependentUpdate(log: Log, update: seq<Entry>)
    requires Valid(log)
    requires forall i :: 0 <= i < |update| ==> Pushable(log, update[i])
    requires forall i, j :: 0 <= i < j < |update| ==> Apart(update[i], update[j])
    ensures Valid(log + update)
  {
    if update == [] {
      assert log + update == log;
    } else {
      var n := |update| - 1;
      var before := update[..n];
      IndependentUpdate(log, before);
      PushableLater(log, before, update[n]);
      ValidPush(log + before, update[n]);
      assert log + update == log + before + [update[n]];
    }
  }

  lemma PushableLater(log: Log, update: seq<Entry>, e: Entry)
    requires Pushable(log, e)
    requires forall i :: 0 <= i < |update| ==> !update[i].Unknown? && Apart(update[i], e)
    ensures Pushable(log + update, e)
  {
    var longer := log + update;
    match e
    case Add(_, Ed25519Key(key)) =>
      forall i: nat | i < |longer| && Live(longer, i)
        ensures longer[i].data != Ed25519Key(key)
      {
        if i < |log| {
          RevokedForGood(log, longer, i);
        }
      }
    case _ =>
  }

  lemma EntriesIn(edits: seq<Edit>, edit: Edit)
    ensures EntryOf(edit) in Entries(edits) <==> edit in edits
  {
    var entries := Entries(edits);
    assert forall other :: EntryOf(other) == EntryOf(edit) ==> other == edit;
    forall i | 0 <= i < |edits|
      ensures entries[i] == EntryOf(edits[i])
    {
    }
    if edit in edits {
      var i :| 0 <= i < |edits| && edits[i] == edit;
      assert entries[i] == EntryOf(edit);
    }
  }

  /** A staged list can be pushed whole, so pushing never refuses a plan. */
  lemma WellStagedPushes(log: Log, staged: seq<Edit>)
    requires Valid(log) && WellStaged(log, staged)
    ensures Valid(log + Entries(staged))
  {
    var update := Entries(staged);
    forall i | 0 <= i < |update|
      ensures Pushable(log, update[i])
    {
      assert staged[i] in staged;
    }
    forall i, j | 0 <= i < j < |update|
      ensures Apart(update[i], update[j])
    {
      assert Together(staged[i], staged[j]);
    }
    IndependentUpdate(log, update);
  }

  /** What publishing well-staged edits does: revoked entries leave, the rest stay, every addition is live. */
  lemma UpdateEffect(log: Log, edits: seq<Edit>, i: nat)
    requires Valid(log) && WellStaged(log, edits)
    ensures i < |log| ==> (Live(log + Entries(edits), i) <==> Live(log, i) && Revoke(i) !in edits)
    ensures |log| <= i < |log| + |edits| ==>
              (Live(log + Entries(edits), i) <==> !edits[i - |log|].Revoke?)
  {
    EntriesIn(edits, Revoke(i));
    if |log| <= i {
      assert Revoke(i) !in edits;
      if Remove(i) in log {
        RemovesPointBack(log, i);
      }
    }
  }

  /** The keys of `log` that `edits` leave live. */
  predicate KeySurvives(log: Log, edits: seq<Edit>, key: Key) {
    exists i: nat :: i < |log| && Live(log, i) && Revoke(i) !in edits && log[i].data == Ed25519Key(key)
  }

  lemma LiveKeyAfter(log: Log, edits: seq<Edit>, key: Key, i: nat)
    requires Valid(log) && WellStaged(log, edits)
    requires i < |log| + |edits| && Live(log + Entries(edits), i)
    requires (log + Entries(edits))[i].data == Ed25519Key(key)
    ensures KeySurvives(log, edits, key) || AddInstallation(key) in edits
  {
    UpdateEffect(log, edits, i);
    if |log| <= i {
      assert edits[i - |log|] == AddInstallation(key);
    }
  }

  lemma StagedKeyAfter(log: Log, edits: seq<Edit>, key: Key)
    requires Valid(log) && WellStaged(log, edits) && AddInstallation(key) in edits
    ensures KeyLive(log + Entries(edits), key)
  {
    var after := log + Entries(edits);
    var n :| 0 <= n < |edits| && edits[n] == AddInstallation(key);
    UpdateEffect(log, edits, |log| + n);
    assert after[|log| + n].data == Ed25519Key(key);
  }

  lemma KeptKeyAfter(log: Log, edits: seq<Edit>, key: Key)
    requires Valid(log) && WellStaged(log, edits) && KeySurvives(log, edits, key)
    ensures KeyLive(log + Entries(edits), key)
  {
    var after := log + Entries(edits);
    var i: nat :| i < |log| && Live(log, i) && Revoke(i) !in edits && log[i].data == Ed25519Key(key);
    UpdateEffect(log, edits, i);
    assert after[i] == log[i];
  }

  lemma KeysAfter(log: Log, edits: seq<Edit>, key: Key)
    requires Valid(log) && WellStaged(log, edits)
    ensures KeyLive(log + Entries(edits), key) <==> KeySurvives(log, edits, key) || AddInstallation(key) in edits
  {
    var after := log + Entries(edits);
    if KeySurvives(log, edits, key) {
      KeptKeyAfter(log, edits, key);
    }
    if AddInstallation(key) in edits {
      StagedKeyAfter(log, edits, key);
    }
    if KeyLive(after, key) {
      var i: nat :| i < |after| && Live(after, i) && after[i].data == Ed25519Key(key);
      LiveKeyAfter(log, edits, key, i);
    }
  }

  /** The live name of `log` that outranks every other one `edits` leave. */
  predicate NameSurvives(log: Log, edits: seq<Edit>, i: nat) {
    && LiveName(log, i)
    && Revoke(i) !in edits
    && forall j: nat :: i < j < |log| && LiveName(log, j) ==> Revoke(j) in edits
  }

  predicate Names(edits: seq<Edit>) {
    exists edit :: edit in edits && edit.SetDisplayName?
  }

  /** A staged name is in force once published. */
  lemma StagedNameAfter(log: Log, edits: seq<Edit>, name: Bytes)
    requires Valid(log) && WellStaged(log, edits) && SetDisplayName(name) in edits
    ensures LiveDisplayName(log + Entries(edits)) == Some(name)
  {
    var after := log + Entries(edits);
    var n :| 0 <= n < |edits| && edits[n] == SetDisplayName(name);
    UpdateEffect(log, edits, |log| + n);
    forall j: nat | |log| + n < j < |after|
      ensures !LiveName(after, j)
    {
      assert Together(edits[n], edits[j - |log|]);
      DisplayEntry(edits[j - |log|]);
    }
    InForceIsTheName(after, |log| + n);
  }

  lemma DisplayEntry(edit: Edit)
    ensures (EntryOf(edit).Add? && EntryOf(edit).data.Text?) <==> edit.SetDisplayName?
    ensures EntryOf(edit).Add? && EntryOf(edit).data.Text? ==> EntryOf(edit).context == DISPLAY_NAME_CONTEXT
  {
  }

  /** With no name staged, the name in force is the highest one left. */
  lemma NameLeftAfter(log: Log, edits: seq<Edit>, i: nat)
    requires Valid(log) && WellStaged(log, edits) && !Names(edits)
    ensures InForce(log + Entries(edits), i) <==> NameSurvives(log, edits, i)
  {
    var after := log + Entries(edits);
    forall j: nat
      ensures LiveName(after, j) <==> LiveName(log, j) && Revoke(j) !in edits
    {
      UpdateEffect(log, edits, j);
      if |log| <= j < |after| {
        assert edits[j - |log|] in edits;
        DisplayEntry(edits[j - |log|]);
      }
    }
  }

  // ---------- The plan is one such order ----------

  lemma {:induction false} KindOf(staged: seq<Edit>, edit: Edit)
    ensures edit in RevokesOf(staged) <==> edit in staged && edit.Revoke?
    ensures edit in AddsOf(staged) <==> edit in staged && !edit.Revoke?
  {
    if staged != [] {
      var before, last := staged[..|staged| - 1], staged[|staged| - 1];
      KindOf(before, edit);
      LastOf(staged);
      InAppended(before, last, edit);
      InAppended(RevokesOf(before), last, edit);
      InAppended(AddsOf(before), last, edit);
    }
  }

  lemma {:induction false} PartsLength(staged: seq<Edit>)
    ensures |RevokesOf(staged)| + |AddsOf(staged)| == |staged|
  {
    if staged != [] {
      PartsLength(staged[..|staged| - 1]);
    }
  }

  lemma PartsAreOfAKind(staged: seq<Edit>)
    ensures forall edit :: edit in RevokesOf(staged) <==> edit in staged && edit.Revoke?
    ensures forall edit :: edit in AddsOf(staged) <==> edit in staged && !edit.Revoke?
    ensures |RevokesOf(staged)| + |AddsOf(staged)| == |staged|
  {
    forall edit: Edit
      ensures edit in RevokesOf(staged) <==> edit in staged && edit.Revoke?
      ensures edit in AddsOf(staged) <==> edit in staged && !edit.Revoke?
    {
      KindOf(staged, edit);
    }
    PartsLength(staged);
  }

  /** No addition is written before a revocation, so every revocation targets an entry already published. */
  lemma RevocationsComeFirst(staged: seq<Edit>)
    ensures forall i, j :: 0 <= i < j < |Plan(staged)| && Plan(staged)[j].Remove? ==> Plan(staged)[i].Remove?
    ensures |Plan(staged)| == |staged|
  {
    var first, rest := RevokesOf(staged), AddsOf(staged);
    PartsAreOfAKind(staged);
    forall k | 0 <= k < |Plan(staged)|
      ensures Plan(staged)[k].Remove? <==> k < |first|
    {
      if k < |first| {
        assert first[k] in first;
      } else {
        assert rest[k - |first|] in rest;
      }
    }
  }

  lemma {:induction false} PlaceAmong(staged: seq<Edit>, i: nat) returns (k: nat)
    requires i < |staged|
    ensures staged[i].Revoke? ==>
              k == |RevokesOf(staged[..i])| < |RevokesOf(staged)| && RevokesOf(staged)[k] == staged[i]
    ensures !staged[i].Revoke? ==>
              k == |AddsOf(staged[..i])| < |AddsOf(staged)| && AddsOf(staged)[k] == staged[i]
  {
    var n := |staged| - 1;
    if i < n {
      k := PlaceAmong(staged[..n], i);
      assert staged[..n][..i] == staged[..i];
    } else {
      k := if staged[i].Revoke? then |RevokesOf(staged[..i])| else |AddsOf(staged[..i])|;
    }
  }

  lemma {:induction false} PartsGrow(staged: seq<Edit>, i: nat, j: nat)
    requires i < j <= |staged|
    ensures |RevokesOf(staged[..j])| >= |RevokesOf(staged[..i])| + if staged[i].Revoke? then 1 else 0
    ensures |AddsOf(staged[..j])| >= |AddsOf(staged[..i])| + if staged[i].Revoke? then 0 else 1
    decreases j
  {
    assert staged[..j][..j - 1] == staged[..j - 1];
    if i < j - 1 {
      PartsGrow(staged, i, j - 1);
    }
  }

  /** Among revocations, and among additions, a plan keeps the order they were staged in. */
  lemma PlanKeepsTheOrder(staged: seq<Edit>, i: nat, j: nat) returns (k: nat, l: nat)
    requires i < j < |staged| && (staged[i].Revoke? <==> staged[j].Revoke?)
    ensures k < l < |Plan(staged)|
    ensures Plan(staged)[k] == EntryOf(staged[i]) && Plan(staged)[l] == EntryOf(staged[j])
  {
    k := PlaceAmong(staged, i);
    l := PlaceAmong(staged, j);
    PartsGrow(staged, i, j);
    if !staged[i].Revoke? {
      k, l := |RevokesOf(staged)| + k, |RevokesOf(staged)| + l;
    }
  }

  lemma PlanIsAnOrder(staged: seq<Edit>)
    ensures Plan(staged) == Entries(RevokesOf(staged) + AddsOf(staged))
    ensures multiset(RevokesOf(staged) + AddsOf(staged)) == multiset(staged)
  {
    PartsOf(staged);
  }

  lemma {:induction false} PartsOf(staged: seq<Edit>)
    ensures multiset(RevokesOf(staged)) + multiset(AddsOf(staged)) == multiset(staged)
  {
    if staged != [] {
      var before, last := staged[..|staged| - 1], staged[|staged| - 1];
      PartsOf(before);
      LastOf(staged);
      Appended(RevokesOf(before), last);
      Appended(AddsOf(before), last);
    }
  }

  lemma {:induction false} CountedOnce(staged: seq<Edit>, edit: Edit)
    requires Distinct(staged)
    ensures multiset(staged)[edit] <= 1
  {
    if staged != [] {
      var n := |staged| - 1;
      CountedOnce(staged[..n], edit);
      assert staged == staged[..n] + [staged[n]];
      forall i | 0 <= i < n
        ensures staged[i] != staged[n]
      {
        assert Together(staged[i], staged[n]);
      }
      assert staged[n] !in staged[..n];
    }
  }

  /** Which edits may wait together has nothing to do with their order. */
  lemma DistinctInAnyOrder(staged: seq<Edit>, order: seq<Edit>)
    requires Distinct(staged) && multiset(order) == multiset(staged)
    ensures Distinct(order)
  {
    forall i, j | 0 <= i < j < |order|
      ensures Together(order[i], order[j])
    {
      var a, b := order[i], order[j];
      CountedOnce(staged, a);
      if a == b {
        CountedTwice(order, i, j);
      }
      assert a in multiset(staged) && b in multiset(staged);
      var k :| 0 <= k < |staged| && staged[k] == a;
      var l :| 0 <= l < |staged| && staged[l] == b;
      assert k != l;
      assert if k < l then Together(staged[k], staged[l]) else Together(staged[l], staged[k]);
    }
  }

  lemma WellStagedInAnyOrder(log: Log, staged: seq<Edit>, order: seq<Edit>)
    requires WellStaged(log, staged) && multiset(order) == multiset(staged)
    ensures WellStaged(log, order)
    ensures forall edit :: edit in order <==> edit in staged
  {
    DistinctInAnyOrder(staged, order);
    forall edit
      ensures edit in order <==> edit in staged
    {
      assert edit in order <==> edit in multiset(order);
    }
  }
}
