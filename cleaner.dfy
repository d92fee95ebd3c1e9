/**
 * The cleaning stage: the table is rebound step by step, first without exact
 * duplicate rows (the first occurrence of each is kept), then without rows
 * whose date is missing, then sorted by date, and finally given its derived
 * columns.
 */
module Cleaner {
  import opened Wrappers
  import opened Seqs
  import opened Sorting
  import opened Sales
  import opened SalesFacts

  /** The rows whose date is present, in their original order. */
  function Dated(rows: seq<Row>): (r: seq<Row>)
    ensures forall x :: x in r <==> x in rows && x.date.Some?
    decreases |rows|
  {
    if rows == [] then []
    else
      var d := Dated(rows[..|rows| - 1]);
      var x := rows[|rows| - 1];
      assert forall y :: y in rows <==> y in rows[..|rows| - 1] || y == x;
      if x.date.Some? then d + [x] else d
  }

  predicate AllDated(rows: seq<Row>) {
    forall i :: 0 <= i < |rows| ==> rows[i].date.Some?
  }

  /** The derived columns added to every row, which must all be dated. */
  function Derive(rows: seq<Row>): (t: seq<Record>)
    requires AllDated(rows)
    ensures |t| == |rows|
    ensures forall i :: 0 <= i < |t| ==> Base(t[i]) == rows[i] && DerivedColumnsHold(t[i])
  {
    seq(|rows|, i requires 0 <= i < |rows| => Enrich(rows[i]))
  }

  /** The original columns of every record. */
  function Bases(t: seq<Record>): (rows: seq<Row>)
    ensures |rows| == |t|
    ensures forall i :: 0 <= i < |t| ==> rows[i] == Base(t[i])
  {
    seq(|t|, i requires 0 <= i < |t| => Base(t[i]))
  }

  /** The cleaned table the stage produces from the parsed sheet. */
  function Cleaned(raw: seq<Row>): seq<Record> {
    var distinct := Dedup(raw);
    var dated := Dated(distinct);
    RowDateOrder();
    var sorted := SortBy(dated, RowDateLe);
    PermutationMembers(dated, sorted);
    Derive(sorted)
  }

  /**
   * The cleaning stage as the script runs it, rebinding the table after each
   * step. The result is sorted by date, carries correct derived columns, holds
   * only rows of the input, holds every dated input row exactly once, and has
   * no two equal rows.
   */
  method Clean(raw: seq<Row>) returns (table: seq<Record>)
    ensures table == Cleaned(raw)
    ensures SortedBy(table, RecordDateLe)
    ensures forall i :: 0 <= i < |table| ==> DerivedColumnsHold(table[i])
    ensures forall i :: 0 <= i < |table| ==> Base(table[i]) in raw
    ensures forall x :: x in raw && x.date.Some? ==> multiset(Bases(table))[x] == 1
    ensures NoDuplicates(table)
  {
    var df := raw;
    df := Dedup(df);
    df := Dated(df);
    RowDateOrder();
    var before := df;
    df := SortBy(df, RowDateLe);
    PermutationMembers(before, df);
    table := Derive(df);
    CleanedSorted(raw);
    CleanedRowsFromInput(raw);
    forall x | x in raw && x.date.Some? ensures multiset(Bases(table))[x] == 1 {
      CleanedCount(raw, x);
    }
    CleanedNoDuplicates(raw);
  }

  lemma BasesOfDerive(rows: seq<Row>)
    requires AllDated(rows)
    ensures Bases(Derive(rows)) == rows
  {
  }

  /** A dated row occurs in the dated rows as often as in the input; an undated row never does. */
  lemma {:induction false} DatedCount(rows: seq<Row>, x: Row)
    ensures multiset(Dated(rows))[x] == if x.date.Some? then multiset(rows)[x] else 0
    decreases |rows|
  {
    if rows != [] {
      var p := rows[..|rows| - 1];
      assert rows == p + [rows[|rows| - 1]];
      DatedCount(p, x);
    }
  }

  /** Keeping the dated rows keeps a sequence free of duplicates. */
  lemma DatedKeepsNoDuplicates(rows: seq<Row>)
    requires NoDuplicates(rows)
    ensures NoDuplicates(Dated(rows))
  {
    forall x ensures multiset(Dated(rows))[x] <= 1 {
      DatedCount(rows, x);
      NoDuplicatesCount(rows, x);
    }
    var d := Dated(rows);
    forall i, j | 0 <= i < j < |d| ensures d[i] != d[j] {
      if d[i] == d[j] {
        TwoOccurrences(d, i, j);
        assert false;
      }
    }
  }

  /** The cleaned table is in non-decreasing date order. */
  lemma CleanedSorted(raw: seq<Row>)
    ensures SortedBy(Cleaned(raw), RecordDateLe)
  {
    RowDateOrder();
    var dated := Dated(Dedup(raw));
    var sorted := SortBy(dated, RowDateLe);
    PermutationMembers(dated, sorted);
    var t := Cleaned(raw);
    forall i, j | 0 <= i < j < |t| ensures RecordDateLe(t[i], t[j]) {
      assert RowDateLe(sorted[i], sorted[j]);
    }
  }

  /** Every cleaned record is a row of the input with derived columns added. */
  lemma CleanedRowsFromInput(raw: seq<Row>)
    ensures forall i :: 0 <= i < |Cleaned(raw)| ==>
              Base(Cleaned(raw)[i]) in raw && DerivedColumnsHold(Cleaned(raw)[i])
  {
    RowDateOrder();
    var dated := Dated(Dedup(raw));
    var sorted := SortBy(dated, RowDateLe);
    PermutationMembers(dated, sorted);
  }

  /** Each dated input row appears in the cleaned table exactly once; any other row never does. */
  lemma CleanedCount(raw: seq<Row>, x: Row)
    ensures multiset(Bases(Cleaned(raw)))[x] == if x in raw && x.date.Some? then 1 else 0
  {
    RowDateOrder();
    var dated := Dated(Dedup(raw));
    var sorted := SortBy(dated, RowDateLe);
    PermutationMembers(dated, sorted);
    BasesOfDerive(sorted);
    DatedCount(Dedup(raw), x);
    DedupCount(raw, x);
  }

  /** No two records of the cleaned table are equal. */
  lemma CleanedNoDuplicates(raw: seq<Row>)
    ensures NoDuplicates(Cleaned(raw))
  {
    RowDateOrder();
    var dated := Dated(Dedup(raw));
    DatedKeepsNoDuplicates(Dedup(raw));
    var sorted := SortBy(dated, RowDateLe);
    PermutationMembers(dated, sorted);
    PermutationKeepsNoDuplicates(dated, sorted);
    var t := Cleaned(raw);
    forall i, j | 0 <= i < j < |t| ensures t[i] != t[j] {
      assert Base(t[i]) == sorted[i] && Base(t[j]) == sorted[j];
    }
  }

  /** A table with all rows dated loses nothing when the undated rows are dropped. */
  lemma {:induction false} DatedOfAllDated(rows: seq<Row>)
    requires AllDated(rows)
    ensures Dated(rows) == rows
    decreases |rows|
  {
    if rows != [] {
      var p := rows[..|rows| - 1];
      DatedOfAllDated(p);
      assert rows == p + [rows[|rows| - 1]];
    }
  }

  /** The records made from dated rows are exactly the correctly derived records of those rows. */
  lemma DeriveMembers(rows: seq<Row>)
    requires AllDated(rows)
    ensures forall r :: r in Derive(rows) <==> Base(r) in rows && DerivedColumnsHold(r)
  {
    var t := Derive(rows);
    forall r | Base(r) in rows && DerivedColumnsHold(r) ensures r in t {
      var j :| 0 <= j < |rows| && rows[j] == Base(r);
      EnrichBase(r);
      EnrichBase(t[j]);
    }
  }

  /** The original columns of a cleaned table are dated and free of duplicates. */
  lemma CleanedBases(raw: seq<Row>)
    ensures AllDated(Bases(Cleaned(raw)))
    ensures NoDuplicates(Bases(Cleaned(raw)))
  {
    var t := Cleaned(raw);
    var b := Bases(t);
    CleanedRowsFromInput(raw);
    CleanedNoDuplicates(raw);
    forall i, j | 0 <= i < j < |b| ensures b[i] != b[j] {
      EnrichBase(t[i]);
      EnrichBase(t[j]);
    }
  }

  /** Cleaning rows that are all dated and distinct keeps every one of them. */
  lemma CleanedOfDistinctDated(rows: seq<Row>)
    requires AllDated(rows) && NoDuplicates(rows)
    ensures |Cleaned(rows)| == |rows|
    ensures forall r :: r in Cleaned(rows) <==> Base(r) in rows && DerivedColumnsHold(r)
  {
    DedupOfDistinct(rows);
    DatedOfAllDated(rows);
    RowDateOrder();
    var sorted := SortBy(rows, RowDateLe);
    PermutationMembers(rows, sorted);
    assert |sorted| == |rows| by { assert |multiset(sorted)| == |multiset(rows)|; }
    DeriveMembers(sorted);
  }

  /**
   * Cleaning an already cleaned table drops no further row and derives the same
   * columns again: the result holds exactly the records of the first result,
   * each once. Only the order of records with equal dates may differ.
   */
  lemma CleanTwice(raw: seq<Row>)
    ensures var t := Cleaned(raw);
            var t2 := Cleaned(Bases(t));
            && |t2| == |t|
            && (forall r :: r in t2 <==> r in t)
  {
    var t := Cleaned(raw);
    var b := Bases(t);
    CleanedBases(raw);
    CleanedOfDistinctDated(b);
    CleanedRowsFromInput(raw);
    forall r ensures r in t <==> Base(r) in b && DerivedColumnsHold(r) {
      if Base(r) in b && DerivedColumnsHold(r) {
        var j :| 0 <= j < |b| && b[j] == Base(r);
        EnrichBase(r);
        EnrichBase(t[j]);
      }
    }
  }

  lemma ScenarioDedup(a: Row, b: Row)
    requires a != b
    ensures Dedup([a, a, b]) == [a, b]
  {
    assert Dedup([a]) == [a] by { assert [a][..0] == []; }
    assert Dedup([a, a]) == [a] by { assert [a, a][..1] == [a]; }
    assert [a, a, b][..2] == [a, a];
  }

  lemma ScenarioDated(a: Row, b: Row)
    requires a.date.Some? && b.date.None?
    ensures Dated([a, b]) == [a]
  {
    assert Dated([a]) == [a] by { assert [a][..0] == []; }
    assert [a, b][..1] == [a];
  }

  lemma ScenarioDistinct(a: Row, b: Row)
    requires a.date.Some? && b.date.None?
    ensures Dated(Dedup([a, a, b])) == [a]
  {
    ScenarioDedup(a, b);
    ScenarioDated(a, b);
  }

  /**
   * Three rows, two of them the same dated row and the third undated, leave a
   * single cleaned record: the duplicate and the undated row are both dropped.
   */
  lemma ThreeRowScenario(a: Row, b: Row)
    requires a.date.Some? && b.date.None?
    ensures |Cleaned([a, a, b])| == 1
    ensures Base(Cleaned([a, a, b])[0]) == a
  {
    ScenarioDistinct(a, b);
    RowDateOrder();
    assert SortBy([a], RowDateLe) == [a] by { assert [a][1..] == []; }
  }
}
