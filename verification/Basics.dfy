/** Types every module shares. */
module Basics {
  datatype Option<+T> = None | Some(value: T)

  datatype Result<+T, +E> = Ok(value: T) | Err(error: E)

  type Byte = n: int | 0 <= n < 256

  type Bytes = seq<Byte>

  /** The bytes of a text whose characters are all one byte long. */
  function Ascii(s: string): (b: Bytes)
    ensures |b| == |s|
  {
    seq(|s|, i requires 0 <= i < |s| => s[i] as int % 256)
  }

  lemma AroundElement<T>(s: seq<T>, n: nat)
    requires n < |s|
    ensures s == s[..n] + ([s[n]] + s[n + 1..])
  {
  }

  lemma Without<T>(s: seq<T>, n: nat)
    requires n < |s|
    ensures multiset(s[..n] + s[n + 1..]) == multiset(s) - multiset{s[n]}
  {
    assert s == s[..n] + [s[n]] + s[n + 1..];
  }

  /** Where the first element of one order stands in another; without it the rest still agree. */
  lemma Elsewhere<T>(one: seq<T>, other: seq<T>) returns (n: nat)
    requires one != [] && multiset(one) == multiset(other)
    ensures n < |other| && other[n] == one[0]
    ensures multiset(one[..0] + one[1..]) == multiset(other[..n] + other[n + 1..])
  {
    assert one[0] in multiset(other);
    n :| 0 <= n < |other| && other[n] == one[0];
    Without(one, 0);
    Without(other, n);
  }

  lemma SuffixIs<T>(s: seq<T>, n: nat, suffix: seq<T>)
    requires |s| == n + |suffix| && forall i :: 0 <= i < |suffix| ==> s[n + i] == suffix[i]
    ensures s[n..] == suffix
  {
  }

  lemma CountedTwice<T>(s: seq<T>, i: nat, j: nat)
    requires i < j < |s| && s[i] == s[j]
    ensures multiset(s)[s[i]] >= 2
  {
    assert s == s[..j] + [s[j]] + s[j + 1..];
    assert s[i] in s[..j];
  }

  /** A list is its last element after the ones before it, in order and in number. */
  lemma LastOf<T>(s: seq<T>)
    requires s != []
    ensures s == s[..|s| - 1] + [s[|s| - 1]]
    ensures multiset(s) == multiset(s[..|s| - 1]) + multiset{s[|s| - 1]}
    ensures forall x :: x in s[..|s| - 1] ==> x in s
  {
    assert s == s[..|s| - 1] + [s[|s| - 1]];
  }

  lemma InAppended<T>(s: seq<T>, last: T, x: T)
    ensures x in s + [last] <==> x in s || x == last
  {
    assert last in [last];
  }

  lemma Appended<T>(s: seq<T>, x: T)
    ensures multiset(s + [x]) == multiset(s) + multiset{x}
  {
  }
}
