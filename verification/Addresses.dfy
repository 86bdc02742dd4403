/** Account addresses: 64 lowercase hex characters, in the order of their spelling. */
module Addresses {
  import opened Basics

  const ADDRESS_LENGTH := 64

  predicate IsHexDigit(c: char) {
    '0' <= c <= '9' || 'a' <= c <= 'f'
  }

  predicate IsAddress(s: string) {
    |s| == ADDRESS_LENGTH && forall i :: 0 <= i < |s| ==> IsHexDigit(s[i])
  }

  type Address = s: string | IsAddress(s) witness seq(ADDRESS_LENGTH, _ => '0')

  function Parse(s: string): (r: Option<Address>) {
    if IsAddress(s) then Some(s) else None
  }

  /** Only the lowercase spelling is read, and it stands for itself. */
  lemma WhatParses(s: string)
    ensures Parse(s) == if |s| == 64 && forall i :: 0 <= i < |s| ==> s[i] in "0123456789abcdef" then Some(s) else None
  {
    forall i | 0 <= i < |s|
      ensures IsHexDigit(s[i]) <==> s[i] in "0123456789abcdef"
    {
      DigitOrLetter(s[i]);
    }
  }

  lemma DigitOrLetter(c: char)
    ensures IsHexDigit(c) <==> c in "0123456789abcdef"
  {
    var digits := "0123456789abcdef";
    if '0' <= c <= '9' {
      assert digits[c as int - '0' as int] == c;
    } else if 'a' <= c <= 'f' {
      assert digits[c as int - 'a' as int + 10] == c;
    }
  }

  /** The order `sort` puts spellings in. */
  predicate AtMost(a: string, b: string) {
    a == [] || (b != [] && (a[0] < b[0] || (a[0] == b[0] && AtMost(a[1..], b[1..]))))
  }

  lemma {:induction false} AtMostTotal(a: string, b: string)
    ensures AtMost(a, b) || AtMost(b, a)
  {
    if a != [] && b != [] {
      AtMostTotal(a[1..], b[1..]);
    }
  }

  lemma {:induction false} AtMostAntisymmetric(a: string, b: string)
    requires AtMost(a, b) && AtMost(b, a)
    ensures a == b
  {
    if a != [] && b != [] {
      AtMostAntisymmetric(a[1..], b[1..]);
      assert a == [a[0]] + a[1..] && b == [b[0]] + b[1..];
    }
  }

  lemma {:induction false} AtMostTransitive(a: string, b: string, c: string)
    requires AtMost(a, b) && AtMost(b, c)
    ensures AtMost(a, c)
  {
    if a != [] && b != [] && c != [] && a[0] == b[0] == c[0] {
      AtMostTransitive(a[1..], b[1..], c[1..]);
    }
  }

  /** One spelling is before another where it starts it, or is less at the first place they differ. */
  lemma {:induction false} AtMostIsLexicographic(a: string, b: string)
    ensures AtMost(a, b) <==> a <= b || exists k :: 0 <= k < |a| && k < |b| && a[..k] == b[..k] && a[k] < b[k]
  {
    if a != [] && b != [] {
      AtMostIsLexicographic(a[1..], b[1..]);
      if a[0] == b[0] {
        TailsAgree(a, b);
      } else if a[0] < b[0] {
        assert a[..0] == b[..0];
      } else {
        forall k | 0 < k < |a| && k < |b|
          ensures a[..k] != b[..k]
        {
          assert a[..k][0] != b[..k][0];
        }
      }
    }
  }

  lemma TailsAgree(a: string, b: string)
    requires a != [] && b != [] && a[0] == b[0]
    ensures a <= b <==> a[1..] <= b[1..]
    ensures (exists k :: 0 <= k < |a| && k < |b| && a[..k] == b[..k] && a[k] < b[k]) <==>
              exists k :: 0 <= k < |a[1..]| && k < |b[1..]| && a[1..][..k] == b[1..][..k] && a[1..][k] < b[1..][k]
  {
    var s, t := a[1..], b[1..];
    assert a == [a[0]] + s && b == [b[0]] + t;
    if k :| 0 <= k < |s| && k < |t| && s[..k] == t[..k] && s[k] < t[k] {
      assert a[..k + 1] == [a[0]] + s[..k] && b[..k + 1] == [b[0]] + t[..k];
      assert a[k + 1] < b[k + 1];
    }
    if k :| 0 <= k < |a| && k < |b| && a[..k] == b[..k] && a[k] < b[k] {
      assert k > 0;
      assert s[..k - 1] == a[..k][1..] && t[..k - 1] == b[..k][1..];
      assert s[k - 1] < t[k - 1];
    }
  }

  predicate Sorted(list: seq<string>) {
    forall i, j :: 0 <= i < j < |list| ==> AtMost(list[i], list[j])
  }

  /** Strictly ordered: no spelling stands twice. */
  predicate Ascending(list: seq<string>) {
    forall i, j :: 0 <= i < j < |list| ==> AtMost(list[i], list[j]) && list[i] != list[j]
  }

  /** A strictly ordered list is decided by what is in it. */
  lemma {:induction false} AscendingIsUnique(one: seq<string>, other: seq<string>)
    requires Ascending(one) && Ascending(other)
    requires forall s :: s in one <==> s in other
    ensures one == other
    decreases |one|
  {
    if one != [] {
      assert one[0] in other;
    }
    if other != [] {
      assert other[0] in one;
    }
    if one != [] {
      SmallestFirst(one, other);
      forall s
        ensures s in one[1..] <==> s in other[1..]
      {
        InTail(one, s);
        InTail(other, s);
      }
      AscendingIsUnique(one[1..], other[1..]);
      assert one == [one[0]] + one[1..] && other == [other[0]] + other[1..];
    }
  }

  lemma InTail(list: seq<string>, s: string)
    requires Ascending(list) && list != []
    ensures s in list[1..] <==> s in list && s != list[0]
  {
    assert list == [list[0]] + list[1..];
    forall i | 0 < i < |list|
      ensures list[i] != list[0]
    {
    }
  }

  lemma SmallestFirst(one: seq<string>, other: seq<string>)
    requires Ascending(one) && Ascending(other) && one != [] && other != []
    requires one[0] in other && other[0] in one
    ensures one[0] == other[0]
  {
    var i :| 0 <= i < |one| && one[i] == other[0];
    var j :| 0 <= j < |other| && other[j] == one[0];
    if i > 0 && j > 0 {
      AtMostAntisymmetric(one[0], other[0]);
    }
  }

  /** Sorted by the spelling `key` gives each element. */
  predicate SortedBy<T>(list: seq<T>, key: T -> string) {
    forall i, j :: 0 <= i < j < |list| ==> AtMost(key(list[i]), key(list[j]))
  }

  /** Where `x` goes in a sorted list. */
  method Position<T>(list: seq<T>, key: T -> string, x: T) returns (n: nat)
    requires SortedBy(list, key)
    ensures n <= |list| && SortedBy(list[..n] + [x] + list[n..], key)
  {
    n := 0;
    while n < |list| && AtMost(key(list[n]), key(x))
      invariant n <= |list|
      invariant forall i :: 0 <= i < n ==> AtMost(key(list[i]), key(x))
    {
      n := n + 1;
    }
    if n < |list| {
      AtMostTotal(key(list[n]), key(x));
      forall i | n <= i < |list|
        ensures AtMost(key(x), key(list[i]))
      {
        if n < i {
          AtMostTransitive(key(x), key(list[n]), key(list[i]));
        }
      }
    }
  }

  /** `sort_by_key`. */
  method SortByKey<T>(list: seq<T>, key: T -> string) returns (sorted: seq<T>)
    ensures SortedBy(sorted, key) && multiset(sorted) == multiset(list)
  {
    sorted := [];
    for i := 0 to |list|
      invariant SortedBy(sorted, key) && multiset(sorted) == multiset(list[..i])
    {
      var n := Position(sorted, key, list[i]);
      assert multiset(sorted) == multiset(sorted[..n]) + multiset(sorted[n..]) by {
        assert sorted == sorted[..n] + sorted[n..];
      }
      assert list[..i + 1] == list[..i] + [list[i]];
      sorted := sorted[..n] + [list[i]] + sorted[n..];
    }
    assert list[..|list|] == list;
  }

  /** `sort` on a list of spellings. */
  method Sort(list: seq<string>) returns (sorted: seq<string>)
    ensures Sorted(sorted) && multiset(sorted) == multiset(list)
  {
    var spelling: string -> string := s => s;
    sorted := SortByKey(list, spelling);
  }

  /** `dedup` on a sorted list: each run of one spelling becomes one. */
  method Dedup(list: seq<string>) returns (unique: seq<string>)
    requires Sorted(list)
    ensures Ascending(unique) && forall s :: s in unique <==> s in list
  {
    unique := [];
    for i := 0 to |list|
      invariant Ascending(unique) && (forall s :: s in unique <==> s in list[..i])
      invariant (unique == [] <==> i == 0) && (i > 0 ==> unique[|unique| - 1] == list[i - 1])
    {
      assert list[..i + 1] == list[..i] + [list[i]];
      if unique == [] || unique[|unique| - 1] != list[i] {
        forall k | 0 <= k < |unique|
          ensures AtMost(unique[k], list[i]) && unique[k] != list[i]
        {
          var last := |unique| - 1;
          assert AtMost(unique[last], list[i]);
          if k < last {
            AtMostTransitive(unique[k], unique[last], list[i]);
            if unique[k] == list[i] {
              AtMostAntisymmetric(unique[k], unique[last]);
            }
          }
        }
        unique := unique + [list[i]];
      }
    }
    assert list[..|list|] == list;
  }
}
