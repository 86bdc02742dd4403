/** What a read, a plan and a write do to a log together. */
module Publishing {
  import opened Basics
  import opened AccountLog
  import opened Codec
  import opened Profile
  import opened Staging

  // ---------- Planning preserves meaning ----------

  /** The plan of a well-staged list is pushed whole. */
  lemma PlanPushes(log: Log, staged: seq<Edit>)
    requires Valid(log) && WellStaged(log, staged)
    ensures Valid(log + Plan(staged))
    ensures PushAll(log, Plan(staged)) == Ok(log + Plan(staged))
  {
    var order := RevokesOf(staged) + AddsOf(staged);
    PlanIsAnOrder(staged);
    WellStagedInAnyOrder(log, staged, order);
    WellStagedPushes(log, order);
    PushAllIsValidity(log, Plan(staged));
  }

  lemma OrdersAgreeOnKeys(log: Log, one: seq<Edit>, other: seq<Edit>, key: Key)
    requires Valid(log) && WellStaged(log, one) && WellStaged(log, other)
    requires forall edit :: edit in one <==> edit in other
    ensures KeyLive(log + Entries(one), key) <==> KeyLive(log + Entries(other), key)
  {
    KeysAfter(log, one, key);
    KeysAfter(log, other, key);
    assert KeySurvives(log, one, key) <==> KeySurvives(log, other, key);
  }

  lemma OrdersAgreeOnTheName(log: Log, one: seq<Edit>, other: seq<Edit>)
    requires Valid(log) && WellStaged(log, one) && WellStaged(log, other)
    requires forall edit :: edit in one <==> edit in other
    ensures LiveDisplayName(log + Entries(one)) == LiveDisplayName(log + Entries(other))
  {
    if Names(one) {
      var edit :| edit in one && edit.SetDisplayName?;
      StagedNameAfter(log, one, edit.name);
      StagedNameAfter(log, other, edit.name);
    } else {
      UnnamedOrdersAgree(log, one, other);
      UnnamedOrdersAgree(log, other, one);
    }
  }

  lemma UnnamedOrdersAgree(log: Log, one: seq<Edit>, other: seq<Edit>)
    requires Valid(log) && WellStaged(log, one) && WellStaged(log, other)
    requires (forall edit :: edit in one <==> edit in other) && !Names(one)
    ensures LiveDisplayName(log + Entries(one)).Some? ==>
              LiveDisplayName(log + Entries(other)) == LiveDisplayName(log + Entries(one))
  {
    var after, beside := log + Entries(one), log + Entries(other);
    LastNameInForce(after);
    if LiveDisplayName(after).Some? {
      var i := LiveDisplayNames(after)[|LiveDisplayNames(after)| - 1].index;
      NameLeftAfter(log, one, i);
      NameLeftAfter(log, other, i);
      InForceIsTheName(beside, i);
      assert after[i] == log[i] == beside[i];
    }
  }

  /** What each staged edit costs the log's byte budget. */
  function EditCost(edit: Edit): nat {
    match edit
    case AddInstallation(_) => 48
    case SetDisplayName(name) => 24 + |name|
    case Revoke(_) => 7
  }

  function Cost(edits: seq<Edit>): nat {
    if edits == [] then 0 else Cost(edits[..|edits| - 1]) + EditCost(edits[|edits| - 1])
  }

  lemma {:induction false} CostConcat(a: seq<Edit>, b: seq<Edit>)
    ensures Cost(a + b) == Cost(a) + Cost(b)
  {
    if b == [] {
      assert a + b == a;
    } else {
      var n := |b| - 1;
      CostConcat(a, b[..n]);
      assert (a + b)[..|a| + n] == a + b[..n];
    }
  }

  lemma CostOfOne(edit: Edit)
    ensures Cost([edit]) == EditCost(edit)
  {
    assert [edit][..0] == [];
  }

  lemma CostWithout(edits: seq<Edit>, n: nat)
    requires n < |edits|
    ensures Cost(edits) == EditCost(edits[n]) + Cost(edits[..n] + edits[n + 1..])
  {
    AroundElement(edits, n);
    CostOfOne(edits[n]);
    CostConcat(edits[..n], [edits[n]] + edits[n + 1..]);
    CostConcat([edits[n]], edits[n + 1..]);
    CostConcat(edits[..n], edits[n + 1..]);
  }

  lemma {:induction false} CostInAnyOrder(one: seq<Edit>, other: seq<Edit>)
    requires multiset(one) == multiset(other)
    ensures Cost(one) == Cost(other)
    decreases |one|
  {
    if one == [] {
      assert |other| == |multiset(other)| == 0;
    } else {
      var n := Elsewhere(one, other);
      CostInAnyOrder(one[..0] + one[1..], other[..n] + other[n + 1..]);
      CostWithout(one, 0);
      CostWithout(other, n);
    }
  }

  lemma FrameCost(edit: Edit)
    requires Authored(edit)
    ensures Encodable(EntryOf(edit)) && FrameBytes(EntryOf(edit)) == EditCost(edit)
  {
    assert |SIGNER_CONTEXT| == 11 && |DISPLAY_NAME_CONTEXT| == 19;
  }

  /** An update made of staged edits is as long as the edits cost. */
  lemma {:induction false} UpdateCost(log: Log, edits: seq<Edit>)
    requires forall edit :: edit in edits ==> Authored(edit)
    ensures PayloadBytes(log + Entries(edits)) == PayloadBytes(log) + Cost(edits)
  {
    if edits == [] {
      assert log + Entries(edits) == log;
    } else {
      var n := |edits| - 1;
      UpdateCost(log, edits[..n]);
      FrameCost(edits[n]);
      assert (log + Entries(edits))[..|log| + n] == log + Entries(edits[..n]);
    }
  }

  /** The plan costs what its edits cost, whatever their order. */
  lemma PlanCost(log: Log, staged: seq<Edit>)
    requires forall edit :: edit in staged ==> Authored(edit)
    ensures PayloadBytes(log + Plan(staged)) == PayloadBytes(log) + Cost(staged)
  {
    var order := RevokesOf(staged) + AddsOf(staged);
    PlanIsAnOrder(staged);
    PartsAreOfAKind(staged);
    UpdateCost(log, order);
    CostInAnyOrder(order, staged);
  }

  lemma ValidIsEncodable(log: Log)
    requires Valid(log)
    ensures AllEncodable(log)
  {
    forall i | 0 <= i < |log|
      ensures Encodable(log[i])
    {
      assert PushableAt(log, i);
    }
  }

  lemma OrdersAgreeOnBytes(log: Log, one: seq<Edit>, other: seq<Edit>)
    requires Valid(log) && multiset(one) == multiset(other)
    requires forall edit :: edit in one ==> Authored(edit)
    requires forall edit :: edit in other ==> Authored(edit)
    ensures PayloadBytes(log + Entries(one)) == PayloadBytes(log + Entries(other))
  {
    UpdateCost(log, one);
    UpdateCost(log, other);
    CostInAnyOrder(one, other);
  }

  /**
   * Revocations first is as good as any order: each order of the staged edits can be
   * pushed whole, and leaves the same old entries, keys, name and size as the plan.
   */
  lemma PlanningPreservesMeaning(log: Log, staged: seq<Edit>, order: seq<Edit>)
    requires Valid(log) && WellStaged(log, staged) && multiset(order) == multiset(staged)
    ensures
      var planned, applied := log + Plan(staged), log + Entries(order);
      && Valid(planned) && Valid(applied)
      && |planned| == |applied|
      && (forall i: nat :: i < |log| ==> (Live(planned, i) <==> Live(applied, i)))
      && (forall key :: KeyLive(planned, key) <==> KeyLive(applied, key))
      && LiveDisplayName(planned) == LiveDisplayName(applied)
      && PayloadBytes(planned) == PayloadBytes(applied)
  {
    var plan := RevokesOf(staged) + AddsOf(staged);
    PlanIsAnOrder(staged);
    WellStagedInAnyOrder(log, staged, plan);
    WellStagedInAnyOrder(log, staged, order);
    WellStagedPushes(log, plan);
    WellStagedPushes(log, order);
    SameLength(plan, order);
    forall i: nat | i < |log|
      ensures Live(log + Entries(plan), i) <==> Live(log + Entries(order), i)
    {
      UpdateEffect(log, plan, i);
      UpdateEffect(log, order, i);
    }
    forall key
      ensures KeyLive(log + Entries(plan), key) <==> KeyLive(log + Entries(order), key)
    {
      OrdersAgreeOnKeys(log, plan, order, key);
    }
    OrdersAgreeOnTheName(log, plan, order);
    OrdersAgreeOnBytes(log, plan, order);
  }

  lemma SameLength(one: seq<Edit>, other: seq<Edit>)
    requires multiset(one) == multiset(other)
    ensures |one| == |other|
  {
    assert |one| == |multiset(one)| && |other| == |multiset(other)|;
  }

  // ---------- What a publish leaves ----------

  /** The plan revokes what was staged for revoking, keeps the rest, and every addition is live. */
  lemma PlanEffect(log: Log, staged: seq<Edit>, i: nat)
    requires Valid(log) && WellStaged(log, staged)
    ensures |Plan(staged)| == |staged|
    ensures i < |log| ==> (Live(log + Plan(staged), i) <==> Live(log, i) && Revoke(i) !in staged)
    ensures |log| <= i < |log + Plan(staged)| ==>
              (Live(log + Plan(staged), i) <==> (log + Plan(staged))[i].Add?)
  {
    var order := RevokesOf(staged) + AddsOf(staged);
    PlanIsAnOrder(staged);
    SameLength(order, staged);
    WellStagedInAnyOrder(log, staged, order);
    UpdateEffect(log, order, i);
  }

  lemma PlanKeys(log: Log, staged: seq<Edit>, key: Key)
    requires Valid(log) && WellStaged(log, staged)
    ensures KeyLive(log + Plan(staged), key) <==> KeySurvives(log, staged, key) || AddInstallation(key) in staged
  {
    var order := RevokesOf(staged) + AddsOf(staged);
    PlanIsAnOrder(staged);
    WellStagedInAnyOrder(log, staged, order);
    KeysAfter(log, order, key);
    assert KeySurvives(log, order, key) <==> KeySurvives(log, staged, key);
  }

  lemma PlanName(log: Log, staged: seq<Edit>, name: Bytes)
    requires Valid(log) && WellStaged(log, staged) && SetDisplayName(name) in staged
    ensures LiveDisplayName(log + Plan(staged)) == Some(name)
  {
    var order := RevokesOf(staged) + AddsOf(staged);
    PlanIsAnOrder(staged);
    WellStagedInAnyOrder(log, staged, order);
    StagedNameAfter(log, order, name);
  }

  lemma PlanLeavesName(log: Log, staged: seq<Edit>, i: nat)
    requires Valid(log) && WellStaged(log, staged) && !Names(staged)
    ensures InForce(log + Plan(staged), i) <==> NameSurvives(log, staged, i)
  {
    var order := RevokesOf(staged) + AddsOf(staged);
    PlanIsAnOrder(staged);
    WellStagedInAnyOrder(log, staged, order);
    NameLeftAfter(log, order, i);
    assert NameSurvives(log, order, i) <==> NameSurvives(log, staged, i);
  }

  /**
   * Exactly once across a lost answer: once the plan is in the log, settling leaves
   * nothing of the list it was made of, and every edit in it holds.
   */
  lemma SettledOnceWritten(base: Log, staged: seq<Edit>)
    requires Valid(base) && WellStaged(base, staged)
    ensures Settled(base + Plan(staged), staged) == []
    ensures forall edit :: edit in staged ==> Holds(base + Plan(staged), edit)
  {
    var written := base + Plan(staged);
    forall edit | edit in staged
      ensures Holds(written, edit) && !Keeps(written, edit)
    {
      match edit
      case Revoke(index) => PlanEffect(base, staged, index);
      case AddInstallation(key) => PlanKeys(base, staged, key);
      case SetDisplayName(name) => PlanName(base, staged, name);
    }
    SettledNone(written, staged);
  }

  // ---------- What others write after it ----------

  /** A live entry of `written` for `edit` was revoked since, or is a name another has outranked since. */
  predicate UndoneSince(written: Log, store: Log, edit: Edit) {
    && written <= store
    && exists j: nat ::
         && j < |written| && written[j] == EntryOf(edit) && Live(written, j)
         && (Remove(j) in store[|written|..] || (edit.SetDisplayName? && Outranked(store, j, edit.name)))
  }

  predicate Outranked(store: Log, j: nat, name: Bytes) {
    exists i: nat :: j < i < |store| && InForce(store, i) && store[i].data.text != name
  }

  /** Where the entry of a staged addition stands in its plan. */
  lemma PlannedAt(staged: seq<Edit>, edit: Edit) returns (n: nat)
    requires edit in staged && !edit.Revoke?
    ensures n < |Plan(staged)| && Plan(staged)[n] == EntryOf(edit)
  {
    KindOf(staged, edit);
    var adds := AddsOf(staged);
    var i :| 0 <= i < |adds| && adds[i] == edit;
    assert Entries(adds)[i] == EntryOf(edit);
    n := |RevokesOf(staged)| + i;
  }

  lemma WrittenAt(base: Log, staged: seq<Edit>, edit: Edit) returns (j: nat)
    requires Valid(base) && WellStaged(base, staged) && edit in staged && !edit.Revoke?
    ensures
      var written := base + Plan(staged);
      j < |written| && written[j] == EntryOf(edit) && Live(written, j)
  {
    var n := PlannedAt(staged, edit);
    j := |base| + n;
    PlanEffect(base, staged, j);
  }

  lemma GoneSince(written: Log, store: Log, j: nat)
    requires written <= store && Live(written, j) && !Live(store, j)
    ensures Remove(j) in store[|written|..]
  {
    assert store == written + store[|written|..];
  }

  lemma OutrankedOrInForce(store: Log, j: nat, name: Bytes)
    requires LiveName(store, j) && store[j].data.text == name && LiveDisplayName(store) != Some(name)
    ensures Outranked(store, j, name)
  {
    LastNameInForce(store);
    var last := LiveDisplayNames(store)[|LiveDisplayNames(store)| - 1].index;
    assert InForce(store, last) && store[last].data.text != name;
  }

  lemma LeftIsUndone(base: Log, staged: seq<Edit>, store: Log, edit: Edit)
    requires Valid(base) && WellStaged(base, staged) && base + Plan(staged) <= store
    requires edit in staged && Keeps(store, edit)
    ensures !edit.Revoke? && UndoneSince(base + Plan(staged), store, edit)
  {
    var written := base + Plan(staged);
    if edit.Revoke? {
      PlanEffect(base, staged, edit.index);
      RevokedForGood(written, store, edit.index);
    } else {
      var j := WrittenAt(base, staged, edit);
      if Live(store, j) {
        assert edit.SetDisplayName? by {
          assert store[j] == EntryOf(edit);
        }
        OutrankedOrInForce(store, j, edit.name);
      } else {
        GoneSince(written, store, j);
      }
    }
  }

  /**
   * Once the plan is in the log, and whatever others append after it, settling leaves a
   * publishable list: no revocation of the one written, a key only where the entry that
   * carried it was revoked since, and a name only there or where another is in force.
   */
  lemma SettledAfterOthers(base: Log, staged: seq<Edit>, store: Log)
    requires Valid(base) && WellStaged(base, staged) && base + Plan(staged) <= store
    ensures WellStaged(store, Settled(store, staged))
    ensures forall edit :: edit in Settled(store, staged) ==>
              !edit.Revoke? && UndoneSince(base + Plan(staged), store, edit)
  {
    SettledWell(store, staged);
    forall edit | edit in Settled(store, staged)
      ensures !edit.Revoke? && UndoneSince(base + Plan(staged), store, edit)
    {
      SettledIn(store, staged, edit);
      LeftIsUndone(base, staged, store, edit);
    }
  }

  // ---------- Settling keeps intent ----------

  /** The name a settled list leaves in force, once published. */
  predicate NameLeft(log: Log, left: seq<Edit>, name: Bytes) {
    exists i: nat :: i < |log| && NameSurvives(log, left, i) && log[i].data.text == name
  }

  lemma DroppedRevocation(base: Log, read: Log, staged: seq<Edit>, index: nat)
    requires base <= read && Valid(read) && WellStaged(base, staged) && Revoke(index) in staged
    ensures Holds(read + Plan(Settled(read, staged)), Revoke(index))
  {
    var left := Settled(read, staged);
    assert Keeps(base, Revoke(index));
    SettledWell(read, staged);
    SettledIn(read, staged, Revoke(index));
    PlanEffect(read, left, index);
  }

  /** A key another device made live sits past every entry a staged revocation can target. */
  lemma DroppedKey(base: Log, read: Log, staged: seq<Edit>, key: Key)
    requires base <= read && Valid(read) && WellStaged(base, staged) && AddInstallation(key) in staged
    ensures Holds(read + Plan(Settled(read, staged)), AddInstallation(key))
  {
    var left := Settled(read, staged);
    SettledWell(read, staged);
    SettledIn(read, staged, AddInstallation(key));
    PlanKeys(read, left, key);
    if KeyLive(read, key) {
      var i: nat :| i < |read| && Live(read, i) && read[i].data == Ed25519Key(key);
      assert Keeps(base, AddInstallation(key));
      SettledIn(read, staged, Revoke(i));
      if i < |base| {
        RevokedForGood(base, read, i);
      }
      assert KeySurvives(read, left, key);
    }
  }

  lemma DroppedName(base: Log, read: Log, staged: seq<Edit>, name: Bytes)
    requires base <= read && Valid(read) && WellStaged(base, staged) && SetDisplayName(name) in staged
    ensures Holds(read + Plan(Settled(read, staged)), SetDisplayName(name)) <==>
              Keeps(read, SetDisplayName(name)) || NameLeft(read, Settled(read, staged), name)
  {
    var left := Settled(read, staged);
    var published := read + Plan(left);
    SettledWell(read, staged);
    SettledIn(read, staged, SetDisplayName(name));
    if Keeps(read, SetDisplayName(name)) {
      PlanName(read, left, name);
    } else {
      OnlyName(read, staged, name);
      LastNameInForce(published);
      if Holds(published, SetDisplayName(name)) {
        var last := LiveDisplayNames(published)[|LiveDisplayNames(published)| - 1].index;
        PlanLeavesName(read, left, last);
        assert published[last] == read[last];
      }
      if NameLeft(read, left, name) {
        var i: nat :| i < |read| && NameSurvives(read, left, i) && read[i].data.text == name;
        PlanLeavesName(read, left, i);
        InForceIsTheName(published, i);
      }
    }
  }

  /** With the one staged name dropped, none is left. */
  lemma OnlyName(read: Log, staged: seq<Edit>, name: Bytes)
    requires Distinct(staged) && SetDisplayName(name) in staged && !Keeps(read, SetDisplayName(name))
    ensures !Names(Settled(read, staged))
  {
    var n :| 0 <= n < |staged| && staged[n] == SetDisplayName(name);
    forall edit | edit in Settled(read, staged)
      ensures !edit.SetDisplayName?
    {
      SettledIn(read, staged, edit);
      var m :| 0 <= m < |staged| && staged[m] == edit;
      assert m < n ==> Together(staged[m], staged[n]);
      assert n < m ==> Together(staged[n], staged[m]);
    }
  }

  /**
   * Whatever others wrote since, publishing what a read leaves carries out every edit
   * staged before it: revocations and keys always, a name exactly where the read kept
   * it or the highest name the rest of the list leaves reads the same.
   */
  lemma SettlingKeepsIntent(base: Log, read: Log, staged: seq<Edit>, edit: Edit)
    requires base <= read && Valid(read) && WellStaged(base, staged) && edit in staged
    ensures Valid(read + Plan(Settled(read, staged)))
    ensures !edit.SetDisplayName? ==> Holds(read + Plan(Settled(read, staged)), edit)
    ensures edit.SetDisplayName? ==>
              (Holds(read + Plan(Settled(read, staged)), edit) <==>
               Keeps(read, edit) || NameLeft(read, Settled(read, staged), edit.name))
  {
    SettledWell(read, staged);
    PlanPushes(read, Settled(read, staged));
    match edit
    case Revoke(index) => DroppedRevocation(base, read, staged, index);
    case AddInstallation(key) => DroppedKey(base, read, staged, key);
    case SetDisplayName(name) => DroppedName(base, read, staged, name);
  }

  /** So a dropped name holds where no staged revocation targets the entry that put it in force. */
  lemma NameKeptUnlessRevoked(base: Log, read: Log, staged: seq<Edit>, name: Bytes, i: nat)
    requires base <= read && Valid(read) && WellStaged(base, staged) && SetDisplayName(name) in staged
    requires InForce(read, i) && Revoke(i) !in staged
    ensures Holds(read + Plan(Settled(read, staged)), SetDisplayName(name))
  {
    InForceIsTheName(read, i);
    SettledIn(read, staged, Revoke(i));
    assert NameSurvives(read, Settled(read, staged), i);
    DroppedName(base, read, staged, name);
  }

  /**
   * The condition is needed. Names N and M are published, N is staged again with a
   * revocation of its first entry, and another device revokes M: N is in force, so the
   * staged name is dropped, and the revocation that stays then takes N away.
   */
  lemma NameCanBeLost(n: Bytes, m: Bytes)
    requires n != m && |n| <= MAX_DISPLAY_NAME_BYTES && |m| <= MAX_DISPLAY_NAME_BYTES
    ensures
      var base := [EntryOf(SetDisplayName(n)), EntryOf(SetDisplayName(m))];
      var staged := [Revoke(0), SetDisplayName(n)];
      var read := base + [Remove(1)];
      && Valid(base) && WellStaged(base, staged)
      && base <= read && Valid(read)
      && Settled(read, staged) == [Revoke(0)]
      && LiveDisplayName(read) == Some(n)
      && LiveDisplayName(read + Plan(Settled(read, staged))) == None
  {
    var base := [EntryOf(SetDisplayName(n)), EntryOf(SetDisplayName(m))];
    var read := base + [Remove(1)];
    TwoNames(base, n, m);
    assert InForce(read, 0);
    InForceIsTheName(read, 0);
    LosesTheName(read, n, m);
  }

  lemma TwoNames(base: Log, n: Bytes, m: Bytes)
    requires n != m && |n| <= MAX_DISPLAY_NAME_BYTES && |m| <= MAX_DISPLAY_NAME_BYTES
    requires base == [EntryOf(SetDisplayName(n)), EntryOf(SetDisplayName(m))]
    ensures Valid(base) && WellStaged(base, [Revoke(0), SetDisplayName(n)]) && Valid(base + [Remove(1)])
  {
    assert InForce(base, 1);
    InForceIsTheName(base, 1);
    assert Live(base, 0) && Live(base, 1);
    ValidPush([], base[0]);
    ValidPush([base[0]], base[1]);
    ValidPush(base, Remove(1));
    assert [] + [base[0]] == [base[0]] && [base[0]] + [base[1]] == base;
  }

  lemma OnlyTheRevocationIsLeft(read: Log, n: Bytes)
    requires Live(read, 0) && LiveDisplayName(read) == Some(n)
    ensures Settled(read, [Revoke(0), SetDisplayName(n)]) == [Revoke(0)]
  {
    var left, staged := [Revoke(0)], [Revoke(0), SetDisplayName(n)];
    assert left[..0] == [] && staged[..1] == left;
    assert Settled(read, left) == left;
  }

  lemma PlanOfOneRevocation(index: nat)
    ensures Plan([Revoke(index)]) == [Remove(index)]
  {
    var staged := [Revoke(index)];
    assert staged[..0] == [];
    assert RevokesOf(staged) == staged && AddsOf(staged) == [];
  }

  lemma BothNamesRevoked(n: Bytes, m: Bytes)
    ensures LiveDisplayName([EntryOf(SetDisplayName(n)), EntryOf(SetDisplayName(m)), Remove(1), Remove(0)]) == None
  {
    var after := [EntryOf(SetDisplayName(n)), EntryOf(SetDisplayName(m)), Remove(1), Remove(0)];
    assert after[2] == Remove(1) && after[3] == Remove(0);
    LastNameInForce(after);
  }

  lemma LosesTheName(read: Log, n: Bytes, m: Bytes)
    requires read == [EntryOf(SetDisplayName(n)), EntryOf(SetDisplayName(m)), Remove(1)]
    requires LiveDisplayName(read) == Some(n)
    ensures Settled(read, [Revoke(0), SetDisplayName(n)]) == [Revoke(0)]
    ensures LiveDisplayName(read + Plan([Revoke(0)])) == None
  {
    OnlyTheRevocationIsLeft(read, n);
    PlanOfOneRevocation(0);
    BothNamesRevoked(n, m);
    assert read + [Remove(0)] == [EntryOf(SetDisplayName(n)), EntryOf(SetDisplayName(m)), Remove(1), Remove(0)];
  }
}
