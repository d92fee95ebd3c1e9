/**
 * The read-only summaries computed from the cleaned table: the mean profit
 * margin per confectionary type, the total revenue per country, the
 * (year, month) with the largest revenue, and the month-by-country revenue
 * grid behind the heatmap.
 */
module Aggregates {
  import opened Wrappers
  import opened Sorting
  import opened Sales
  import opened Groups

  /** Each record's confectionary type with its profit margin. */
  function MarginsByType(t: seq<Record>): seq<(string, Option<real>)>
  {
    seq(|t|, i requires 0 <= i < |t| => (t[i].confectionary, t[i].margin))
  }

  /** Each record's revenue under the group key `key` picks out. */
  function RevenueBy<K>(t: seq<Record>, key: Record -> K): seq<(K, real)>
  {
    seq(|t|, i requires 0 <= i < |t| => (key(t[i]), t[i].revenue))
  }

  function Country(r: Record): string {
    r.country
  }

  function YearMonth(r: Record): (int, string) {
    (r.year, r.month)
  }

  function MonthCountry(r: Record): (string, string) {
    (r.month, r.country)
  }

  /** The revenue of the whole table. */
  function TotalRevenue(t: seq<Record>): real
    decreases |t|
  {
    if t == [] then 0.0 else TotalRevenue(t[..|t| - 1]) + t[|t| - 1].revenue
  }

  /** The present profit margins of the records of type `c`. */
  function TypeMargins(t: seq<Record>, c: string): seq<real> {
    PresentFor(MarginsByType(t), c)
  }

  /** Mean profit margin per confectionary type, largest first, types without any margin last. */
  function AvgMargin(t: seq<Record>): seq<(string, Option<real>)> {
    MeanDescOrder<string>();
    SortBy(GroupMeans(MarginsByType(t)), MeanDesc)
  }

  /** Total revenue per country, largest first. */
  function RegionRevenue(t: seq<Record>): seq<(string, real)> {
    ValueDescOrder<string>();
    SortBy(GroupSums(RevenueBy(t, Country)), ValueDesc)
  }

  /** The (year, month name) group with the largest total revenue, as a one-row table. */
  function PeakMonth(t: seq<Record>): seq<((int, string), real)> {
    Peak(RevenueBy(t, YearMonth))
  }

  /** The non-empty cells of the month-by-country revenue grid, each holding its sum. */
  function Pivot(t: seq<Record>): seq<((string, string), real)> {
    GroupSums(RevenueBy(t, MonthCountry))
  }
}

/** What each summary promises about the cleaned table. */
module AggregateFacts {
  import opened Wrappers
  import opened Seqs
  import opened Sorting
  import opened Sales
  import opened Groups
  import opened GroupFacts
  import opened Aggregates

  /** The entries of all records together carry the whole table's revenue, whatever the key. */
  lemma {:induction false} RevenueByTotal<K>(t: seq<Record>, key: Record -> K)
    ensures SumValues(RevenueBy(t, key)) == TotalRevenue(t)
    decreases |t|
  {
    if t != [] {
      var es := RevenueBy(t, key);
      var p := t[..|t| - 1];
      RevenueByTotal(p, key);
      assert es[..|es| - 1] == RevenueBy(p, key);
    }
  }

  /** A key occurs among the entries exactly when some record has it. */
  lemma RevenueKeys<K>(t: seq<Record>, key: Record -> K, k: K)
    ensures k in KeysOf(RevenueBy(t, key)) <==> exists i :: 0 <= i < |t| && key(t[i]) == k
  {
    var es := RevenueBy(t, key);
    KeysOfMembers(es, k);
    if exists i :: 0 <= i < |t| && key(t[i]) == k {
      var i :| 0 <= i < |t| && key(t[i]) == k;
      assert es[i].0 == k;
    }
    if exists i :: 0 <= i < |es| && es[i].0 == k {
      var i :| 0 <= i < |es| && es[i].0 == k;
      assert key(t[i]) == k;
    }
  }

  /** A type occurs among the margin entries exactly when some record has it. */
  lemma MarginKeys(t: seq<Record>, c: string)
    ensures c in KeysOf(MarginsByType(t)) <==> exists i :: 0 <= i < |t| && t[i].confectionary == c
  {
    var es := MarginsByType(t);
    KeysOfMembers(es, c);
    if exists i :: 0 <= i < |t| && t[i].confectionary == c {
      var i :| 0 <= i < |t| && t[i].confectionary == c;
      assert es[i].0 == c;
    }
    if exists i :: 0 <= i < |es| && es[i].0 == c {
      var i :| 0 <= i < |es| && es[i].0 == c;
      assert t[i].confectionary == c;
    }
  }

  /** The margins a type's mean is taken over are exactly the present margins of its records. */
  lemma TypeMarginsMembers(t: seq<Record>, c: string, x: real)
    ensures x in TypeMargins(t, c) <==> exists i :: 0 <= i < |t| && t[i].confectionary == c && t[i].margin == Some(x)
  {
    var es := MarginsByType(t);
    PresentForMembers(es, c, x);
    if (c, Some(x)) in es {
      var i :| 0 <= i < |es| && es[i] == (c, Some(x));
      assert t[i].confectionary == c && t[i].margin == Some(x);
    }
    if exists i :: 0 <= i < |t| && t[i].confectionary == c && t[i].margin == Some(x) {
      var i :| 0 <= i < |t| && t[i].confectionary == c && t[i].margin == Some(x);
      assert es[i] == (c, Some(x));
    }
  }

  /** A margin occurs among a type's margins as often as records of that type have it. */
  lemma TypeMarginsCount(t: seq<Record>, c: string, x: real)
    ensures multiset(TypeMargins(t, c))[x] == multiset(MarginsByType(t))[(c, Some(x))]
  {
    PresentForCount(MarginsByType(t), c, x);
  }

  /**
   * One entry per confectionary type of the table, no type twice; each entry is
   * the mean of that type's present margins (missing when it has none); the
   * entries run from the largest mean down, with the missing ones last.
   */
  lemma AvgMarginEntries(t: seq<Record>)
    ensures var r := AvgMargin(t);
            && NoDuplicates(KeysOf(r))
            && (forall c :: c in KeysOf(r) <==> exists i :: 0 <= i < |t| && t[i].confectionary == c)
            && (forall i :: 0 <= i < |r| ==> r[i].1 == Mean(TypeMargins(t, r[i].0)))
            && SortedBy(r, MeanDesc)
  {
    MeanDescOrder<string>();
    var es := MarginsByType(t);
    var g := GroupMeans(es);
    var r := AvgMargin(t);
    GroupMeansEntries(es);
    ReorderedGroups(g, r);
    assert forall c :: c in KeysOf(r) <==> exists i :: 0 <= i < |t| && t[i].confectionary == c by {
      forall c ensures c in KeysOf(r) <==> exists i :: 0 <= i < |t| && t[i].confectionary == c {
        MarginKeys(t, c);
      }
    }
    var f := c => Mean(TypeMargins(t, c));
    ReorderedValues(g, r, f);
  }

  /** A type's mean margin lies between its smallest and its largest margin. */
  lemma AvgMarginBounds(t: seq<Record>, i: int)
    requires 0 <= i < |AvgMargin(t)| && AvgMargin(t)[i].1.Some?
    ensures var xs := TypeMargins(t, AvgMargin(t)[i].0);
            xs != [] && Min(xs) <= AvgMargin(t)[i].1.value <= Max(xs)
  {
    AvgMarginEntries(t);
    MeanBounds(TypeMargins(t, AvgMargin(t)[i].0));
  }

  /**
   * One entry per country of the table, no country twice; each entry is the sum
   * of that country's revenues; the entries run from the largest down and
   * together add up to the table's total revenue.
   */
  lemma RegionRevenueEntries(t: seq<Record>)
    ensures var r := RegionRevenue(t);
            && NoDuplicates(KeysOf(r))
            && (forall c :: c in KeysOf(r) <==> exists i :: 0 <= i < |t| && t[i].country == c)
            && (forall i :: 0 <= i < |r| ==> r[i].1 == SumFor(RevenueBy(t, Country), r[i].0))
            && SortedBy(r, ValueDesc)
            && SumValues(r) == TotalRevenue(t)
  {
    ValueDescOrder<string>();
    var es := RevenueBy(t, Country);
    var g := GroupSums(es);
    var r := RegionRevenue(t);
    GroupSumsEntries(es);
    ReorderedGroups(g, r);
    forall c ensures c in KeysOf(r) <==> exists i :: 0 <= i < |t| && t[i].country == c {
      RevenueKeys(t, Country, c);
    }
    ReorderedValues(g, r, c => SumFor(es, c));
    SumValuesPermutation(g, r);
    GroupSumsTotal(es);
    RevenueByTotal(t, Country);
  }

  /**
   * The peak holds at most one (year, month name) group and holds none exactly
   * when the table is empty; its group is that of some record, its value is the
   * group's revenue sum, and no other group's sum exceeds it.
   */
  lemma PeakMonthIsMaximal(t: seq<Record>)
    ensures var r := PeakMonth(t);
            && |r| <= 1
            && (r == [] <==> t == [])
            && (r != [] ==>
                  && (exists i :: 0 <= i < |t| && (t[i].year, t[i].month) == r[0].0)
                  && r[0].1 == SumFor(RevenueBy(t, YearMonth), r[0].0)
                  && (forall i :: 0 <= i < |t| ==>
                        SumFor(RevenueBy(t, YearMonth), (t[i].year, t[i].month)) <= r[0].1))
  {
    var es := RevenueBy(t, YearMonth);
    PeakIsMaximal(es);
    var r := PeakMonth(t);
    if r != [] {
      RevenueKeys(t, YearMonth, r[0].0);
      forall i | 0 <= i < |t| ensures SumFor(es, (t[i].year, t[i].month)) <= r[0].1 {
        RevenueKeys(t, YearMonth, YearMonth(t[i]));
      }
    }
  }

  /**
   * One cell per (month name, country) pair that occurs, no pair twice; each
   * cell holds the pair's revenue sum, with the years of one month name added
   * together; all cells together add up to the table's total revenue.
   */
  lemma PivotCells(t: seq<Record>)
    ensures var p := Pivot(t);
            && NoDuplicates(KeysOf(p))
            && (forall m, c :: (m, c) in KeysOf(p) <==>
                  exists i :: 0 <= i < |t| && t[i].month == m && t[i].country == c)
            && (forall i :: 0 <= i < |p| ==> p[i].1 == SumFor(RevenueBy(t, MonthCountry), p[i].0))
            && SumValues(p) == TotalRevenue(t)
  {
    var es := RevenueBy(t, MonthCountry);
    GroupSumsEntries(es);
    forall m, c ensures (m, c) in KeysOf(Pivot(t)) <==>
                         exists i :: 0 <= i < |t| && t[i].month == m && t[i].country == c {
      RevenueKeys(t, MonthCountry, (m, c));
    }
    GroupSumsTotal(es);
    RevenueByTotal(t, MonthCountry);
  }
}
