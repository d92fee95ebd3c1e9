/**
 * One row of the confectionary sales sheet, before and after cleaning.
 *
 * A `Row` holds the columns the pipeline reads, under their normalised names
 * (`Date`, `Confectionary`, `CountryUK`, `Units_Sold`, `RevenueGBP`,
 * `ProfitGBP`). Its date is what the day-first date parser produced for the
 * cell: a calendar date, or nothing when the cell could not be parsed.
 *
 * A `Record` is a row of the cleaned table: its date is present, and it carries
 * the three derived columns `Year`, `Month` and `Profit_Margin_%`.
 */
module Sales {
  import opened Wrappers

  type Month = m: int | 1 <= m <= 12 witness 1
  type Day = d: int | 1 <= d <= 31 witness 1

  /**
   * A parsed calendar date. The date cells are taken to hold a day and no time
   * of day, so no time of day is kept.
   */
  datatype Date = Date(year: int, month: Month, day: Day)

  /** Chronological order on dates. */
  predicate DateLe(a: Date, b: Date) {
    || a.year < b.year
    || (a.year == b.year && a.month < b.month)
    || (a.year == b.year && a.month == b.month && a.day <= b.day)
  }

  /** The English month names the month-name accessor produces, January first. */
  const MonthNames: seq<string> := [
    "January", "February", "March", "April", "May", "June",
    "July", "August", "September", "October", "November", "December"
  ]

  function MonthName(m: Month): string {
    MonthNames[m - 1]
  }

  datatype Row = Row(
    date: Option<Date>,
    confectionary: string,
    country: string,
    unitsSold: int,
    revenue: real,
    profit: real)

  datatype Record = Record(
    date: Date,
    confectionary: string,
    country: string,
    unitsSold: int,
    revenue: real,
    profit: real,
    year: int,
    month: string,
    margin: Option<real>)

  /** The columns a record shares with the row it was made from. */
  function Base(r: Record): Row {
    Row(Some(r.date), r.confectionary, r.country, r.unitsSold, r.revenue, r.profit)
  }

  /**
   * The profit margin in percent. A row with zero revenue has no margin. On the
   * spreadsheet's floating-point columns the division gives NaN there when the
   * profit is zero too, and an infinity otherwise; the model records both as a
   * missing value.
   */
  function Margin(revenue: real, profit: real): (m: Option<real>)
    ensures m.None? <==> revenue == 0.0
    ensures m.Some? ==> m.value * revenue == profit * 100.0
  {
    if revenue == 0.0 then None
    else
      var q := profit / revenue;
      assert q * revenue == profit;
      Some(q * 100.0)
  }

  /** The derived columns of a record agree with its date, revenue and profit. */
  predicate DerivedColumnsHold(r: Record) {
    && r.year == r.date.year
    && r.month == MonthName(r.date.month)
    && r.margin == Margin(r.revenue, r.profit)
  }

  /** A dated row with its derived columns added and every other column as it was. */
  function Enrich(row: Row): (r: Record)
    requires row.date.Some?
    ensures Base(r) == row
    ensures DerivedColumnsHold(r)
  {
    var d := row.date.value;
    Record(d, row.confectionary, row.country, row.unitsSold, row.revenue, row.profit,
      d.year, MonthName(d.month), Margin(row.revenue, row.profit))
  }

  /** Order by date, with undated rows last as the sort places missing values. */
  predicate RowDateLe(a: Row, b: Row) {
    if a.date.None? then b.date.None?
    else b.date.None? || DateLe(a.date.value, b.date.value)
  }

  predicate RecordDateLe(a: Record, b: Record) {
    DateLe(a.date, b.date)
  }
}

/** Properties of dates, month names, margins and derived columns. */
module SalesFacts {
  import opened Sorting
  import opened Seqs
  import opened Sales

  /** Chronological order is total and transitive, so sorting by it is well defined. */
  lemma DateOrder()
    ensures forall a, b :: DateLe(a, b) || DateLe(b, a)
    ensures forall a, b, c :: DateLe(a, b) && DateLe(b, c) ==> DateLe(a, c)
    ensures forall a, b :: DateLe(a, b) && DateLe(b, a) ==> a == b
  {
  }

  lemma RowDateOrder()
    ensures TotalPreorder(RowDateLe)
  {
    DateOrder();
  }

  /** No two months share a name. */
  lemma MonthNamesDistinct()
    ensures |MonthNames| == 12
    ensures NoDuplicates(MonthNames)
  {
  }

  /** Two dates have the same month name exactly when they fall in the same month. */
  lemma MonthNameInjective(m1: Month, m2: Month)
    ensures MonthName(m1) == MonthName(m2) <==> m1 == m2
  {
    MonthNamesDistinct();
  }

  /** A record is determined by its base row once its derived columns hold. */
  lemma EnrichBase(r: Record)
    requires DerivedColumnsHold(r)
    ensures Enrich(Base(r)) == r
  {
  }

  /** Within one (year, month name) group every record's date lies in that calendar month. */
  lemma SameMonthGroup(r1: Record, r2: Record)
    requires DerivedColumnsHold(r1) && DerivedColumnsHold(r2)
    ensures (r1.year, r1.month) == (r2.year, r2.month) <==>
            r1.date.year == r2.date.year && r1.date.month == r2.date.month
  {
    MonthNameInjective(r1.date.month, r2.date.month);
  }
}
