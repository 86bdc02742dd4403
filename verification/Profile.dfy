/** The profile rules: of the live display names the highest-indexed is in force. */
module Profile {
  import opened Basics
  import opened AccountLog

  datatype Name = Name(index: nat, value: Bytes)

  predicate LiveName(log: Log, i: nat) {
    Live(log, i) && log[i].context == DISPLAY_NAME_CONTEXT && log[i].data.Text?
  }

  /** The live names among the first `n` entries, oldest first. */
  function NamesUpTo(log: Log, n: nat): seq<Name>
    requires n <= |log|
  {
    if n == 0 then []
    else NamesUpTo(log, n - 1) + if LiveName(log, n - 1) then [Name(n - 1, log[n - 1].data.text)] else []
  }

  function LiveDisplayNames(log: Log): seq<Name> {
    NamesUpTo(log, |log|)
  }

  function LiveDisplayName(log: Log): Option<Bytes> {
    var names := LiveDisplayNames(log);
    if names == [] then None else Some(names[|names| - 1].value)
  }

  predicate InForce(log: Log, i: nat) {
    LiveName(log, i) && forall j: nat :: i < j < |log| ==> !LiveName(log, j)
  }

  lemma {:induction false} NamesUpToAreTheLiveOnes(log: Log, n: nat)
    requires n <= |log|
    ensures forall k :: 0 <= k < |NamesUpTo(log, n)| ==>
              var name := NamesUpTo(log, n)[k];
              name.index < n && LiveName(log, name.index) && name.value == log[name.index].data.text
    ensures forall j, k :: 0 <= j < k < |NamesUpTo(log, n)| ==>
              NamesUpTo(log, n)[j].index < NamesUpTo(log, n)[k].index
    ensures forall i: nat :: i < n && LiveName(log, i) ==> Name(i, log[i].data.text) in NamesUpTo(log, n)
    ensures forall i: nat :: LiveName(log, i) <==>
              Live(log, i) && exists text :: log[i] == Add(DISPLAY_NAME_CONTEXT, Text(text))
  {
    forall i: nat | LiveName(log, i)
      ensures exists text :: log[i] == Add(DISPLAY_NAME_CONTEXT, Text(text))
    {
      assert log[i] == Add(DISPLAY_NAME_CONTEXT, Text(log[i].data.text));
    }
    if n > 0 {
      NamesUpToAreTheLiveOnes(log, n - 1);
      var before, names := NamesUpTo(log, n - 1), NamesUpTo(log, n);
      assert forall x :: x in before ==> x in names;
      if LiveName(log, n - 1) {
        assert names[|before|] == Name(n - 1, log[n - 1].data.text);
      }
    }
  }

  /** The last of the listed names is the one in force, and there is one wherever a name is live. */
  lemma LastNameInForce(log: Log)
    ensures LiveDisplayNames(log) == [] <==> forall i: nat :: i < |log| ==> !LiveName(log, i)
    ensures LiveDisplayNames(log) != [] ==>
              var last := LiveDisplayNames(log)[|LiveDisplayNames(log)| - 1];
              InForce(log, last.index) && LiveDisplayName(log) == Some(log[last.index].data.text)
  {
    NamesUpToAreTheLiveOnes(log, |log|);
    var names := LiveDisplayNames(log);
    if names != [] {
      var last := names[|names| - 1];
      forall j: nat | j < |log| && LiveName(log, j)
        ensures j <= last.index
      {
        var k :| 0 <= k < |names| && names[k] == Name(j, log[j].data.text);
      }
    }
  }

  /** A name is in force exactly where its entry outranks every other live one. */
  lemma InForceIsTheName(log: Log, i: nat)
    requires InForce(log, i)
    ensures LiveDisplayName(log) == Some(log[i].data.text)
    ensures LiveDisplayNames(log) != []
    ensures LiveDisplayNames(log)[|LiveDisplayNames(log)| - 1] == Name(i, log[i].data.text)
  {
    LastNameInForce(log);
    NamesUpToAreTheLiveOnes(log, |log|);
  }

  /** Whether `name` is the one in force, or none where none is live. */
  predicate IsInForce(log: Log, name: Option<Name>) {
    match name
    case None => forall i: nat :: i < |log| ==> !LiveName(log, i)
    case Some(Name(i, value)) => InForce(log, i) && value == log[i].data.text
  }

  /** The last of the names listed is the one in force. */
  lemma ListedNameInForce(log: Log)
    ensures
      var names := LiveDisplayNames(log);
      IsInForce(log, if names == [] then None else Some(names[|names| - 1]))
  {
    LastNameInForce(log);
    NamesUpToAreTheLiveOnes(log, |log|);
  }

  /** The name shown is what some entry in force reads, and no name where none is. */
  lemma NameIsInForce(log: Log, name: Bytes)
    ensures LiveDisplayName(log) == Some(name) <==> exists i: nat :: InForce(log, i) && log[i].data.text == name
  {
    LastNameInForce(log);
    if i: nat :| InForce(log, i) && log[i].data.text == name {
      InForceIsTheName(log, i);
    }
  }
}
