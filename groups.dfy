/**
 * Group-by over key/value entries: one group per distinct key, aggregated by
 * sum or by mean of the values that are present, then ordered by the
 * aggregate, largest first.
 *
 * The order in which groups come out of the group-by itself does not matter
 * to the callers, because each result except the pivot is re-sorted by value;
 * the model keeps the order of first appearance.
 */
module Groups {
  import opened Wrappers
  import opened Seqs
  import opened Sorting

  function KeysOf<K, V>(es: seq<(K, V)>): seq<K>
  {
    seq(|es|, i requires 0 <= i < |es| => es[i].0)
  }

  /** The distinct keys of the entries, in order of first appearance. */
  function GroupKeys<K(==,!new), V>(es: seq<(K, V)>): seq<K> {
    Dedup(KeysOf(es))
  }

  /** The sum of the values of the entries with key `k`; zero when there are none. */
  function SumFor<K(==)>(es: seq<(K, real)>, k: K): real
    decreases |es|
  {
    if es == [] then 0.0
    else
      var e := es[|es| - 1];
      SumFor(es[..|es| - 1], k) + (if e.0 == k then e.1 else 0.0)
  }

  /** The entry `(k, SumFor(es, k))` for every `k` of `ks`, in the order of `ks`. */
  function Totals<K(==)>(ks: seq<K>, es: seq<(K, real)>): (r: seq<(K, real)>)
    ensures |r| == |ks|
    ensures forall i :: 0 <= i < |ks| ==> r[i] == (ks[i], SumFor(es, ks[i]))
    decreases |ks|
  {
    if ks == [] then []
    else
      var k := ks[|ks| - 1];
      Totals(ks[..|ks| - 1], es) + [(k, SumFor(es, k))]
  }

  /** Group by key, then sum each group. */
  function GroupSums<K(==,!new)>(es: seq<(K, real)>): seq<(K, real)> {
    Totals(GroupKeys(es), es)
  }

  /** The values present among the entries with key `k`, in order; missing values are skipped. */
  function PresentFor<K(==)>(es: seq<(K, Option<real>)>, k: K): (xs: seq<real>)
    ensures |xs| <= |es|
    decreases |es|
  {
    if es == [] then []
    else
      var e := es[|es| - 1];
      var p := PresentFor(es[..|es| - 1], k);
      if e.0 == k && e.1.Some? then p + [e.1.value] else p
  }

  function Sum(xs: seq<real>): real
    decreases |xs|
  {
    if xs == [] then 0.0 else Sum(xs[..|xs| - 1]) + xs[|xs| - 1]
  }

  /** The arithmetic mean; an empty group has none, as the mean of only missing values is missing. */
  function Mean(xs: seq<real>): (m: Option<real>)
    ensures m.None? <==> xs == []
    ensures m.Some? ==> m.value * (|xs| as real) == Sum(xs)
  {
    if xs == [] then None
    else
      var n := |xs| as real;
      var q := Sum(xs) / n;
      assert q * n == Sum(xs);
      Some(q)
  }

  /** The entry `(k, Mean(PresentFor(es, k)))` for every `k` of `ks`, in the order of `ks`. */
  function Means<K(==)>(ks: seq<K>, es: seq<(K, Option<real>)>): (r: seq<(K, Option<real>)>)
    ensures |r| == |ks|
    ensures forall i :: 0 <= i < |ks| ==> r[i] == (ks[i], Mean(PresentFor(es, ks[i])))
    decreases |ks|
  {
    if ks == [] then []
    else
      var k := ks[|ks| - 1];
      Means(ks[..|ks| - 1], es) + [(k, Mean(PresentFor(es, k)))]
  }

  /** Group by key, then take the mean of each group's present values. */
  function GroupMeans<K(==,!new)>(es: seq<(K, Option<real>)>): seq<(K, Option<real>)> {
    Means(GroupKeys(es), es)
  }

  function Min(xs: seq<real>): (m: real)
    requires xs != []
    ensures m in xs
    ensures forall i :: 0 <= i < |xs| ==> m <= xs[i]
    decreases |xs|
  {
    if |xs| == 1 then xs[0]
    else
      var p := xs[..|xs| - 1];
      var m := Min(p);
      assert forall i :: 0 <= i < |p| ==> xs[i] == p[i];
      if xs[|xs| - 1] < m then xs[|xs| - 1] else m
  }

  function Max(xs: seq<real>): (m: real)
    requires xs != []
    ensures m in xs
    ensures forall i :: 0 <= i < |xs| ==> xs[i] <= m
    decreases |xs|
  {
    if |xs| == 1 then xs[0]
    else
      var p := xs[..|xs| - 1];
      var m := Max(p);
      assert forall i :: 0 <= i < |p| ==> xs[i] == p[i];
      if xs[|xs| - 1] > m then xs[|xs| - 1] else m
  }

  /** Larger value first. */
  predicate ValueDesc<K>(a: (K, real), b: (K, real)) {
    a.1 >= b.1
  }

  /** Larger mean first; groups without a mean come last, as missing values sort last. */
  predicate MeanDesc<K>(a: (K, Option<real>), b: (K, Option<real>)) {
    if a.1.None? then b.1.None?
    else b.1.None? || a.1.value >= b.1.value
  }

  /** The first element, if there is one. */
  function Head<T>(s: seq<T>): seq<T> {
    if s == [] then [] else [s[0]]
  }

  /** The group with the largest sum: group, sum, sort largest first, keep the first. */
  function Peak<K(==,!new)>(es: seq<(K, real)>): seq<(K, real)> {
    ValueDescOrder<K>();
    Head(SortBy(GroupSums(es), ValueDesc))
  }

  lemma ValueDescOrder<K(!new)>()
    ensures TotalPreorder(ValueDesc<K>)
  {
  }

  lemma MeanDescOrder<K(!new)>()
    ensures TotalPreorder(MeanDesc<K>)
  {
  }
}

/** What the group-by aggregates promise. */
module GroupFacts {
  import opened Wrappers
  import opened Seqs
  import opened Sorting
  import opened Groups

  lemma KeysOfMembers<K, V>(es: seq<(K, V)>, k: K)
    ensures k in KeysOf(es) <==> exists i :: 0 <= i < |es| && es[i].0 == k
  {
    if k in KeysOf(es) {
      var i :| 0 <= i < |es| && KeysOf(es)[i] == k;
    }
    if exists i :: 0 <= i < |es| && es[i].0 == k {
      var i :| 0 <= i < |es| && es[i].0 == k;
      assert KeysOf(es)[i] == k;
    }
  }

  /** A key that no entry carries sums to zero. */
  lemma {:induction false} SumForAbsent<K>(es: seq<(K, real)>, k: K)
    requires k !in KeysOf(es)
    ensures SumFor(es, k) == 0.0
    decreases |es|
  {
    if es != [] {
      var p := es[..|es| - 1];
      assert KeysOf(p) == KeysOf(es)[..|es| - 1];
      assert es[|es| - 1].0 == KeysOf(es)[|es| - 1];
      SumForAbsent(p, k);
    }
  }

  /** One more entry `(k, v)` adds `v` to the total of the group sums exactly when `k` is one of the keys. */
  lemma {:induction false} TotalsStep<K>(ks: seq<K>, es: seq<(K, real)>, k: K, v: real)
    requires NoDuplicates(ks)
    ensures SumValues(Totals(ks, es + [(k, v)])) == SumValues(Totals(ks, es)) + (if k in ks then v else 0.0)
    decreases |ks|
  {
    if ks != [] {
      var p := ks[..|ks| - 1];
      var x := ks[|ks| - 1];
      var es' := es + [(k, v)];
      assert ks == p + [x];
      assert NoDuplicates(p);
      TotalsStep(p, es, k, v);
      assert es'[..|es'| - 1] == es;
      assert SumFor(es', x) == SumFor(es, x) + (if k == x then v else 0.0);
      var a := Totals(p, es');
      var b := Totals(p, es);
      assert (a + [(x, SumFor(es', x))])[..|a|] == a;
      assert (b + [(x, SumFor(es, x))])[..|b|] == b;
      assert k in ks <==> k in p || k == x;
      assert x !in p;
    }
  }

  /** An entry with a new key opens a group at the end; one with a known key changes no key. */
  lemma GroupKeysStep<K(!new)>(p: seq<(K, real)>, k: K, v: real)
    ensures GroupKeys(p + [(k, v)]) ==
            if k in GroupKeys(p) then GroupKeys(p) else GroupKeys(p) + [k]
  {
    var es := p + [(k, v)];
    assert KeysOf(es)[..|es| - 1] == KeysOf(p);
    assert KeysOf(es)[|es| - 1] == k;
  }

  /** The first entry with key `k` is the whole of that key's sum. */
  lemma FirstOfKey<K(!new)>(p: seq<(K, real)>, k: K, v: real)
    requires k !in GroupKeys(p)
    ensures SumFor(p + [(k, v)], k) == v
  {
    var es := p + [(k, v)];
    assert es[..|es| - 1] == p;
    SumForAbsent(p, k);
  }

  lemma TotalsAppend<K>(ks: seq<K>, k: K, es: seq<(K, real)>)
    ensures SumValues(Totals(ks + [k], es)) == SumValues(Totals(ks, es)) + SumFor(es, k)
  {
    assert (ks + [k])[..|ks|] == ks;
    var a := Totals(ks, es);
    assert (a + [(k, SumFor(es, k))])[..|a|] == a;
  }

  /** An entry whose key already has a group adds its value to that group's sum. */
  lemma KnownKeyStep<K(!new)>(p: seq<(K, real)>, k: K, v: real)
    requires k in GroupKeys(p)
    ensures SumValues(GroupSums(p + [(k, v)])) == SumValues(GroupSums(p)) + v
  {
    var gp := GroupKeys(p);
    TotalsStep(gp, p, k, v);
    GroupKeysStep(p, k, v);
  }

  /** An entry with a new key opens a group holding its value. */
  lemma NewKeyStep<K(!new)>(p: seq<(K, real)>, k: K, v: real)
    requires k !in GroupKeys(p)
    ensures SumValues(GroupSums(p + [(k, v)])) == SumValues(GroupSums(p)) + v
  {
    var gp := GroupKeys(p);
    var es := p + [(k, v)];
    TotalsStep(gp, p, k, v);
    GroupKeysStep(p, k, v);
    FirstOfKey(p, k, v);
    TotalsAppend(gp, k, es);
  }

  /** The group sums together add up to the sum of all values: grouping loses and duplicates nothing. */
  lemma {:induction false} GroupSumsTotal<K(!new)>(es: seq<(K, real)>)
    ensures SumValues(GroupSums(es)) == SumValues(es)
    decreases |es|
  {
    if es != [] {
      var p := es[..|es| - 1];
      var k, v := es[|es| - 1].0, es[|es| - 1].1;
      assert es == p + [(k, v)];
      GroupSumsTotal(p);
      if k in GroupKeys(p) {
        KnownKeyStep(p, k, v);
      } else {
        NewKeyStep(p, k, v);
      }
    }
  }

  /**
   * The group sums have one entry per distinct key of the input, no key twice,
   * and each entry holds the sum of its key's values.
   */
  lemma GroupSumsEntries<K(!new)>(es: seq<(K, real)>)
    ensures var g := GroupSums(es);
            && NoDuplicates(KeysOf(g))
            && (forall k :: k in KeysOf(g) <==> k in KeysOf(es))
            && (forall i :: 0 <= i < |g| ==> g[i].1 == SumFor(es, g[i].0))
  {
    assert KeysOf(GroupSums(es)) == GroupKeys(es);
  }

  /**
   * The group means have one entry per distinct key of the input, no key twice,
   * and each entry holds the mean of its key's present values.
   */
  lemma GroupMeansEntries<K(!new)>(es: seq<(K, Option<real>)>)
    ensures var g := GroupMeans(es);
            && NoDuplicates(KeysOf(g))
            && (forall k :: k in KeysOf(g) <==> k in KeysOf(es))
            && (forall i :: 0 <= i < |g| ==> g[i].1 == Mean(PresentFor(es, g[i].0)))
  {
    assert KeysOf(GroupMeans(es)) == GroupKeys(es);
  }

  /** Reordering entries whose keys are distinct keeps the keys distinct and the same. */
  lemma ReorderedGroups<K, V>(g: seq<(K, V)>, s: seq<(K, V)>)
    requires multiset(g) == multiset(s)
    requires NoDuplicates(KeysOf(g))
    ensures NoDuplicates(KeysOf(s))
    ensures forall k :: k in KeysOf(s) <==> k in KeysOf(g)
  {
    PermutationMembers(g, s);
    assert NoDuplicates(g) by {
      forall i, j | 0 <= i < j < |g| ensures g[i] != g[j] {
        assert KeysOf(g)[i] != KeysOf(g)[j];
      }
    }
    PermutationKeepsNoDuplicates(g, s);
    forall i, j | 0 <= i < j < |s| ensures KeysOf(s)[i] != KeysOf(s)[j] {
      assert s[i] in g && s[j] in g;
      var a :| 0 <= a < |g| && g[a] == s[i];
      var b :| 0 <= b < |g| && g[b] == s[j];
      assert a != b;
      assert KeysOf(g)[a] != KeysOf(g)[b];
    }
    forall k ensures k in KeysOf(s) <==> k in KeysOf(g) {
      KeysOfMembers(s, k);
      KeysOfMembers(g, k);
      if k in KeysOf(s) {
        var i :| 0 <= i < |s| && s[i].0 == k;
        assert s[i] in g;
      }
      if k in KeysOf(g) {
        var i :| 0 <= i < |g| && g[i].0 == k;
        assert g[i] in s;
      }
    }
  }

  /** Reordering entries keeps every entry's value what `f` gives for its key. */
  lemma ReorderedValues<K, V>(g: seq<(K, V)>, s: seq<(K, V)>, f: K -> V)
    requires multiset(g) == multiset(s)
    requires forall i :: 0 <= i < |g| ==> g[i].1 == f(g[i].0)
    ensures forall i :: 0 <= i < |s| ==> s[i].1 == f(s[i].0)
  {
    forall i | 0 <= i < |s| ensures s[i].1 == f(s[i].0) {
      assert s[i] in multiset(s);
      var j :| 0 <= j < |g| && g[j] == s[i];
    }
  }

  lemma {:induction false} SumBounds(xs: seq<real>, lo: real, hi: real)
    requires forall i :: 0 <= i < |xs| ==> lo <= xs[i] <= hi
    ensures lo * (|xs| as real) <= Sum(xs) <= hi * (|xs| as real)
    decreases |xs|
  {
    if xs != [] {
      SumBounds(xs[..|xs| - 1], lo, hi);
    }
  }

  /** A value `m` with `m * n == total`, for a positive `n`, lies within the bounds `total` has at scale `n`. */
  lemma ScaledBetween(lo: real, hi: real, m: real, n: real, total: real)
    requires n > 0.0 && lo * n <= total <= hi * n && m * n == total
    ensures lo <= m <= hi
  {
    assert (m - lo) * n == total - lo * n;
    assert (hi - m) * n == hi * n - total;
  }

  /** The mean of values that all lie between `lo` and `hi` lies between them too. */
  lemma MeanWithin(xs: seq<real>, lo: real, hi: real)
    requires xs != []
    requires forall i :: 0 <= i < |xs| ==> lo <= xs[i] <= hi
    ensures lo <= Mean(xs).value <= hi
  {
    SumBounds(xs, lo, hi);
    ScaledBetween(lo, hi, Mean(xs).value, |xs| as real, Sum(xs));
  }

  /** A mean lies between the smallest and the largest value it is taken over. */
  lemma MeanBounds(xs: seq<real>)
    requires xs != []
    ensures Min(xs) <= Mean(xs).value <= Max(xs)
  {
    MeanWithin(xs, Min(xs), Max(xs));
  }

  /** A value is among the present values of group `k` exactly when some entry of `k` holds it. */
  lemma {:induction false} PresentForMembers<K>(es: seq<(K, Option<real>)>, k: K, x: real)
    ensures x in PresentFor(es, k) <==> (k, Some(x)) in es
    decreases |es|
  {
    if es != [] {
      var p := es[..|es| - 1];
      PresentForMembers(p, k, x);
      assert es == p + [es[|es| - 1]];
    }
  }

  /**
   * Each value occurs among the present values of group `k` as often as the
   * entries of `k` hold it: no value is dropped and none is merged with an
   * equal one, so the mean weighs every entry.
   */
  lemma {:induction false} PresentForCount<K>(es: seq<(K, Option<real>)>, k: K, x: real)
    ensures multiset(PresentFor(es, k))[x] == multiset(es)[(k, Some(x))]
    decreases |es|
  {
    if es != [] {
      var p := es[..|es| - 1];
      var e := es[|es| - 1];
      PresentForCount(p, k, x);
      assert es == p + [e];
      assert multiset(es)[(k, Some(x))] == multiset(p)[(k, Some(x))] + (if e == (k, Some(x)) then 1 else 0);
      if e.0 == k && e.1.Some? {
        assert PresentFor(es, k) == PresentFor(p, k) + [e.1.value];
      } else {
        assert PresentFor(es, k) == PresentFor(p, k);
      }
    }
  }

  /** Three entries of one group, one of them missing: the mean is taken over the two present values. */
  lemma MeanSkipsMissing<K>(k: K)
    ensures Mean(PresentFor([(k, Some(10.0)), (k, None), (k, Some(30.0))], k)) == Some(20.0)
  {
    var es: seq<(K, Option<real>)> := [(k, Some(10.0)), (k, None), (k, Some(30.0))];
    assert es[..2][..1][..0] == [];
    assert PresentFor(es[..2][..1], k) == [10.0];
    assert PresentFor(es[..2], k) == [10.0];
    assert PresentFor(es, k) == [10.0, 30.0];
    var xs: seq<real> := [10.0, 30.0];
    assert Sum(xs) == 40.0 by { assert xs[..1][..0] == []; }
  }

  /**
   * The peak holds at most one group, holds none exactly when there are no
   * entries, and its group is a real one whose sum is at least every group's
   * sum. Which of several tied groups it holds is left open.
   */
  lemma PeakIsMaximal<K(!new)>(es: seq<(K, real)>)
    ensures |Peak(es)| <= 1
    ensures Peak(es) == [] <==> es == []
    ensures Peak(es) != [] ==>
              && Peak(es)[0].0 in KeysOf(es)
              && Peak(es)[0].1 == SumFor(es, Peak(es)[0].0)
              && (forall k :: k in KeysOf(es) ==> SumFor(es, k) <= Peak(es)[0].1)
  {
    ValueDescOrder<K>();
    var s := SortBy(GroupSums(es), ValueDesc);
    GroupSumsReordered(es, s);
    if s != [] {
      forall k | k in KeysOf(es) ensures SumFor(es, k) <= s[0].1 {
        SortedHeadBound(es, s, k);
      }
    }
  }

  /** A reordering of the groups is empty exactly when there are no entries; its first entry is a true group. */
  lemma GroupSumsReordered<K(!new)>(es: seq<(K, real)>, s: seq<(K, real)>)
    requires multiset(s) == multiset(GroupSums(es))
    ensures forall e :: e in GroupSums(es) <==> e in s
    ensures s == [] <==> es == []
    ensures s != [] ==> s[0].0 in KeysOf(es) && s[0].1 == SumFor(es, s[0].0)
  {
    var g := GroupSums(es);
    PermutationMembers(g, s);
    assert |s| == |g| by { assert |multiset(s)| == |multiset(g)|; }
    GroupSumsEmpty(es);
    if s != [] {
      assert s[0] in g;
      GroupEntry(es, s[0]);
    }
  }

  /** There are groups exactly when there are entries. */
  lemma GroupSumsEmpty<K(!new)>(es: seq<(K, real)>)
    ensures GroupSums(es) == [] <==> es == []
  {
    if es != [] {
      assert KeysOf(es)[0] in KeysOf(es);
      GroupSumsEntries(es);
      assert KeysOf(es)[0] in KeysOf(GroupSums(es));
    }
  }

  /** A group entry carries a key of the input and that key's sum. */
  lemma GroupEntry<K(!new)>(es: seq<(K, real)>, e: (K, real))
    requires e in GroupSums(es)
    ensures e.0 in KeysOf(es) && e.1 == SumFor(es, e.0)
  {
    var g := GroupSums(es);
    GroupSumsEntries(es);
    var i :| 0 <= i < |g| && g[i] == e;
    assert KeysOf(g)[i] == e.0;
  }

  /** The first of the groups sorted largest first bounds every key's sum. */
  lemma SortedHeadBound<K(!new)>(es: seq<(K, real)>, s: seq<(K, real)>, k: K)
    requires SortedBy(s, ValueDesc) && forall e :: e in GroupSums(es) <==> e in s
    requires k in KeysOf(es)
    ensures s != [] && SumFor(es, k) <= s[0].1
  {
    var g := GroupSums(es);
    GroupSumsEntries(es);
    assert k in KeysOf(g);
    var j :| 0 <= j < |g| && KeysOf(g)[j] == k;
    assert g[j] in s;
    var m :| 0 <= m < |s| && s[m] == g[j];
    assert m == 0 || ValueDesc(s[0], s[m]);
  }

  /** Of two months with sums 500 and 700, the peak is the 700 one. */
  lemma PeakOfTwo<K(!new)>(k1: K, k2: K)
    requires k1 != k2
    ensures Peak([(k1, 500.0), (k2, 700.0)]) == [(k2, 700.0)]
  {
    var es: seq<(K, real)> := [(k1, 500.0), (k2, 700.0)];
    PeakIsMaximal(es);
    assert es[..1][..0] == [];
    assert SumFor(es[..1], k1) == 500.0 && SumFor(es[..1], k2) == 0.0;
    assert SumFor(es, k1) == 500.0 && SumFor(es, k2) == 700.0;
    assert KeysOf(es)[0] == k1 && KeysOf(es)[1] == k2;
    var p := Peak(es)[0];
    assert p.0 == k1 || p.0 == k2 by {
      KeysOfMembers(es, p.0);
    }
  }
}
