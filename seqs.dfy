/**
 * Facts about sequences shared by the cleaner and the aggregates: removing
 * duplicates while keeping first occurrences, and sums of values that do not
 * depend on the order of the entries.
 *
 * Recursive definitions peel off the LAST element, so that a left-to-right
 * loop over a prefix follows them step by step.
 */
module Seqs {

  /** No element occurs twice. */
  predicate NoDuplicates<T(==)>(s: seq<T>) {
    forall i, j :: 0 <= i < j < |s| ==> s[i] != s[j]
  }

  /** The first occurrence of every element of `s`, in the order of `s`. */
  function Dedup<T(==,!new)>(s: seq<T>): (r: seq<T>)
    ensures forall x :: x in r <==> x in s
    ensures NoDuplicates(r)
    decreases |s|
  {
    if s == [] then []
    else
      var d := Dedup(s[..|s| - 1]);
      var x := s[|s| - 1];
      assert forall y :: y in s <==> y in s[..|s| - 1] || y == x;
      if x in d then d else d + [x]
  }

  /** In a sequence without duplicates an element occurs once or not at all. */
  lemma {:induction false} NoDuplicatesCount<T>(s: seq<T>, x: T)
    requires NoDuplicates(s)
    ensures multiset(s)[x] == if x in s then 1 else 0
  {
    if s != [] {
      var p := s[..|s| - 1];
      assert s == p + [s[|s| - 1]];
      assert NoDuplicates(p);
      NoDuplicatesCount(p, x);
      assert s[|s| - 1] !in p;
    }
  }

  /** Every element of `s` occurs in `Dedup(s)` exactly once, and nothing else does. */
  lemma DedupCount<T(!new)>(s: seq<T>, x: T)
    ensures multiset(Dedup(s))[x] == if x in s then 1 else 0
  {
    NoDuplicatesCount(Dedup(s), x);
  }

  /** Removing duplicates from a sequence that has none changes nothing. */
  lemma {:induction false} DedupOfDistinct<T(!new)>(s: seq<T>)
    requires NoDuplicates(s)
    ensures Dedup(s) == s
  {
    if s != [] {
      var p := s[..|s| - 1];
      assert NoDuplicates(p);
      DedupOfDistinct(p);
      assert s[|s| - 1] !in p;
      assert s == p + [s[|s| - 1]];
    }
  }

  /** Two occurrences of one element make its count at least two. */
  lemma TwoOccurrences<T>(s: seq<T>, i: int, j: int)
    requires 0 <= i < j < |s| && s[i] == s[j]
    ensures multiset(s)[s[i]] >= 2
  {
    assert s == s[..j] + [s[j]] + s[j + 1..];
    assert s[i] in s[..j];
  }

  /** Being free of duplicates survives any permutation. */
  lemma PermutationKeepsNoDuplicates<T>(s: seq<T>, t: seq<T>)
    requires multiset(s) == multiset(t) && NoDuplicates(s)
    ensures NoDuplicates(t)
  {
    forall i, j | 0 <= i < j < |t| ensures t[i] != t[j] {
      if t[i] == t[j] {
        TwoOccurrences(t, i, j);
        NoDuplicatesCount(s, t[i]);
        assert false;
      }
    }
  }

  /** The sum of the values of key/value entries. */
  function SumValues<K>(es: seq<(K, real)>): real
    decreases |es|
  {
    if es == [] then 0.0 else SumValues(es[..|es| - 1]) + es[|es| - 1].1
  }

  lemma {:induction false} SumValuesAppend<K>(a: seq<(K, real)>, b: seq<(K, real)>)
    ensures SumValues(a + b) == SumValues(a) + SumValues(b)
    decreases |b|
  {
    if b != [] {
      var b' := b[..|b| - 1];
      assert (a + b)[..|a + b| - 1] == a + b';
      SumValuesAppend(a, b');
    } else {
      assert a + b == a;
    }
  }

  /** Taking out one entry takes out its value from the sum. */
  lemma SumValuesRemove<K>(t: seq<(K, real)>, i: int)
    requires 0 <= i < |t|
    ensures SumValues(t) == SumValues(t[..i] + t[i + 1..]) + t[i].1
  {
    var x := t[i];
    assert t == t[..i] + [x] + t[i + 1..];
    SumValuesAppend(t[..i] + [x], t[i + 1..]);
    SumValuesAppend(t[..i], [x]);
    SumValuesAppend(t[..i], t[i + 1..]);
    assert SumValues([x]) == x.1 by { assert [x][..0] == []; }
  }

  /** Taking out one entry takes one occurrence of it out of the multiset. */
  lemma MultisetRemove<T>(t: seq<T>, i: int)
    requires 0 <= i < |t|
    ensures multiset(t[..i] + t[i + 1..]) == multiset(t) - multiset{t[i]}
  {
    assert t == t[..i] + [t[i]] + t[i + 1..];
  }

  /** The sum of the values does not depend on the order of the entries. */
  lemma {:induction false} SumValuesPermutation<K>(s: seq<(K, real)>, t: seq<(K, real)>)
    requires multiset(s) == multiset(t)
    ensures SumValues(s) == SumValues(t)
    decreases |s|
  {
    if s == [] {
      assert |t| == |multiset(t)| == 0;
    } else {
      var x := s[|s| - 1];
      assert x in multiset(t) by { assert x in multiset(s); }
      var i :| 0 <= i < |t| && t[i] == x;
      MultisetRemove(s, |s| - 1);
      MultisetRemove(t, i);
      assert s[..|s| - 1] + s[|s|..] == s[..|s| - 1];
      SumValuesPermutation(s[..|s| - 1], t[..i] + t[i + 1..]);
      SumValuesRemove(t, i);
    }
  }
}
