/**
 * Sorting by a key order, as `sort_values` does. The library's default sort is
 * not stable, so the only promises made about a sorted result are that it is
 * in order and that it is a permutation of the input; which of two entries with
 * equal keys comes first is left open.
 */
module Sorting {

  /** `le` is total and transitive: it orders everything, with ties allowed. */
  ghost predicate TotalPreorder<T(!new)>(le: (T, T) -> bool) {
    && (forall a, b :: le(a, b) || le(b, a))
    && (forall a, b, c :: le(a, b) && le(b, c) ==> le(a, c))
  }

  predicate SortedBy<T>(s: seq<T>, le: (T, T) -> bool) {
    forall i, j :: 0 <= i < j < |s| ==> le(s[i], s[j])
  }

  function Insert<T(!new)>(x: T, s: seq<T>, le: (T, T) -> bool): (r: seq<T>)
    requires TotalPreorder(le) && SortedBy(s, le)
    ensures SortedBy(r, le)
    ensures multiset(r) == multiset(s) + multiset{x}
  {
    if s == [] || le(x, s[0]) then
      BelowHead(x, s, le);
      ConsSorted(x, s, le);
      [x] + s
    else
      var rest := Insert(x, s[1..], le);
      assert s == [s[0]] + s[1..];
      LowerBoundKept(s[0], x, s[1..], rest, le);
      ConsSorted(s[0], rest, le);
      [s[0]] + rest
  }

  /** Whatever is below the first element of a sorted sequence is below all of it. */
  lemma BelowHead<T(!new)>(x: T, s: seq<T>, le: (T, T) -> bool)
    requires TotalPreorder(le) && SortedBy(s, le) && (s == [] || le(x, s[0]))
    ensures forall k :: 0 <= k < |s| ==> le(x, s[k])
  {
  }

  /** A lower bound of a sorted sequence can be put in front of it. */
  lemma ConsSorted<T>(y: T, s: seq<T>, le: (T, T) -> bool)
    requires SortedBy(s, le) && forall k :: 0 <= k < |s| ==> le(y, s[k])
    ensures SortedBy([y] + s, le)
  {
  }

  /** A lower bound of `x` and of every element of `s` bounds every element of a permutation of `s + [x]`. */
  lemma LowerBoundKept<T>(y: T, x: T, s: seq<T>, r: seq<T>, le: (T, T) -> bool)
    requires le(y, x) && forall k :: 0 <= k < |s| ==> le(y, s[k])
    requires multiset(r) == multiset(s) + multiset{x}
    ensures forall k :: 0 <= k < |r| ==> le(y, r[k])
  {
    forall k | 0 <= k < |r| ensures le(y, r[k]) {
      assert r[k] in multiset(r);
      if r[k] != x {
        assert r[k] in multiset(s);
      }
    }
  }

  /** A sorted permutation of `s`. */
  function SortBy<T(!new)>(s: seq<T>, le: (T, T) -> bool): (r: seq<T>)
    requires TotalPreorder(le)
    ensures SortedBy(r, le)
    ensures multiset(r) == multiset(s)
  {
    if s == [] then []
    else
      assert s == [s[0]] + s[1..];
      Insert(s[0], SortBy(s[1..], le), le)
  }

  /** A permutation has the same elements as the original. */
  lemma PermutationMembers<T>(s: seq<T>, t: seq<T>)
    requires multiset(s) == multiset(t)
    ensures forall x :: x in s <==> x in t
  {
    forall x ensures x in s <==> x in t {
      assert x in s <==> x in multiset(s);
      assert x in t <==> x in multiset(t);
    }
  }
}
