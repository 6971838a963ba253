/** DataFrame.sort_values(date_column): rows by ascending date, rows whose
    date is missing placed last (pandas' na_position='last'). */
module DateOrder {
  import opened Tables

  /** The sort key of a date cell; NaT and anything that is not a date have none. */
  function DateKey(c: Cell): Option<int> {
    if c.Date? then Some(c.day) else None
  }

  /** `a` may come before `b`: earlier dates first, missing keys last. */
  predicate KeyLe(a: Option<int>, b: Option<int>) {
    b.None? || (a.Some? && a.value <= b.value)
  }

  function RowKey(row: Row, column: string): Option<int> {
    DateKey(Get(row, column))
  }

  /** Neighbouring rows are in date order. */
  predicate Ordered(rows: seq<Row>, column: string) {
    |rows| < 2 || (KeyLe(RowKey(rows[0], column), RowKey(rows[1], column)) && Ordered(rows[1..], column))
  }

  /** Every pair of rows is in date order, missing dates after all present ones. */
  predicate SortedByDate(rows: seq<Row>, column: string) {
    forall i, j :: 0 <= i < j < |rows| ==> KeyLe(RowKey(rows[i], column), RowKey(rows[j], column))
  }

  /** Places `x` before the first row whose date is strictly later. */
  function InsertByDate(x: Row, rows: seq<Row>, column: string): (r: seq<Row>)
    ensures |r| == |rows| + 1
    ensures r[0] == x || (rows != [] && r[0] == rows[0])
    ensures multiset(r) == multiset(rows) + multiset{x}
    ensures Ordered(rows, column) ==> Ordered(r, column)
  {
    if rows == [] || !KeyLe(RowKey(rows[0], column), RowKey(x, column)) then [x] + rows
    else
      assert rows == [rows[0]] + rows[1..];
      [rows[0]] + InsertByDate(x, rows[1..], column)
  }

  /** Insertion sort on the date column. */
  function SortByDate(rows: seq<Row>, column: string): (r: seq<Row>)
    ensures |r| == |rows|
    ensures multiset(r) == multiset(rows)
    ensures Ordered(r, column)
    ensures SortedByDate(r, column)
  {
    if rows == [] then []
    else
      assert rows == [rows[0]] + rows[1..];
      var r := InsertByDate(rows[0], SortByDate(rows[1..], column), column);
      OrderedSorted(r, column);
      r
  }

  /** Neighbour order gives the order of every pair, because KeyLe is transitive. */
  lemma {:induction false} OrderedSorted(rows: seq<Row>, column: string)
    requires Ordered(rows, column)
    ensures SortedByDate(rows, column)
  {
    if |rows| >= 2 {
      OrderedSorted(rows[1..], column);
      forall i, j | 0 <= i < j < |rows|
        ensures KeyLe(RowKey(rows[i], column), RowKey(rows[j], column))
      {
        if i > 0 {
          assert rows[i] == rows[1..][i - 1] && rows[j] == rows[1..][j - 1];
        } else if j > 1 {
          assert rows[1] == rows[1..][0] && rows[j] == rows[1..][j - 1];
        }
      }
    }
  }

  /** Projection onto columns that include the date column keeps the order. */
  lemma ProjectKeepsOrder(rows: seq<Row>, column: string, columns: seq<string>)
    requires column in columns
    requires SortedByDate(rows, column)
    ensures SortedByDate(ProjectRows(rows, columns), column)
  {
  }

  /** A prefix of sorted rows is sorted. */
  lemma HeadKeepsOrder(rows: seq<Row>, column: string)
    requires SortedByDate(rows, column)
    ensures SortedByDate(Head(rows), column)
  {
  }
  /** m is the earliest date in `column` over `rows`, or None (NaT) when no row holds a date. */
  ghost predicate IsEarliest(m: Option<int>, rows: seq<Row>, column: string) {
    match m
    case None => forall i :: 0 <= i < |rows| ==> !Get(rows[i], column).Date?
    case Some(d) =>
      && (exists i :: 0 <= i < |rows| && Get(rows[i], column) == Date(d))
      && forall i :: 0 <= i < |rows| && Get(rows[i], column).Date? ==> d <= Get(rows[i], column).day
  }

  /** m is the latest date in `column` over `rows`, or None (NaT) when no row holds a date. */
  ghost predicate IsLatest(m: Option<int>, rows: seq<Row>, column: string) {
    match m
    case None => forall i :: 0 <= i < |rows| ==> !Get(rows[i], column).Date?
    case Some(d) =>
      && (exists i :: 0 <= i < |rows| && Get(rows[i], column) == Date(d))
      && forall i :: 0 <= i < |rows| && Get(rows[i], column).Date? ==> Get(rows[i], column).day <= d
  }

  /** Series.min() on a date column: missing values are skipped. */
  function MinDate(rows: seq<Row>, column: string): (m: Option<int>)
    ensures IsEarliest(m, rows, column)
  {
    if rows == [] then None
    else
      var rest := MinDate(rows[1..], column);
      var c := Get(rows[0], column);
      assert forall i :: 1 <= i < |rows| ==> rows[i] == rows[1..][i - 1];
      if c.Date? && (rest.None? || c.day <= rest.value) then Some(c.day) else rest
  }

  /** Series.max() on a date column: missing values are skipped. */
  function MaxDate(rows: seq<Row>, column: string): (m: Option<int>)
    ensures IsLatest(m, rows, column)
  {
    if rows == [] then None
    else
      var rest := MaxDate(rows[1..], column);
      var c := Get(rows[0], column);
      assert forall i :: 1 <= i < |rows| ==> rows[i] == rows[1..][i - 1];
      if c.Date? && (rest.None? || c.day >= rest.value) then Some(c.day) else rest
  }
}
