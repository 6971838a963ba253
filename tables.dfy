/** The in-memory table the data loader holds: cells, rows keyed by column
    name, an ordered column list, and the row-level operations pandas
    performs on it (boolean-mask filtering, column selection, head). */
module Tables {

  datatype Option<+T> = None | Some(value: T)

  /** One cell. Null stands for every missing marker pandas uses (NaN, NaT,
      pd.NA). Date is an already parsed datetime, kept as an opaque ordinal:
      only its order matters here. */
  datatype Cell = Null | Text(text: string) | Number(number: int) | Date(day: int)

  /** A row maps each column name to its cell. */
  type Row = map<string, Cell>

  /** A data frame: the ordered column list and the rows in index order. */
  datatype Table = Table(columns: seq<string>, rows: seq<Row>)

  /** pd.DataFrame(): no columns, no rows. */
  const EmptyTable: Table := Table([], [])

  /** How many rows DataFrame.head(20) keeps. */
  const HeadSize: nat := 20

  predicate Distinct<T(==)>(s: seq<T>) {
    forall i, j :: 0 <= i < j < |s| ==> s[i] != s[j]
  }

  function ColumnSet(columns: seq<string>): set<string> {
    set c | c in columns
  }

  /** No column is named twice, and every row holds exactly the table's columns. */
  predicate WellFormed(t: Table) {
    && Distinct(t.columns)
    && forall i :: 0 <= i < |t.rows| ==> t.rows[i].Keys == ColumnSet(t.columns)
  }

  /** The cell of `row` under `column`; a column the row lacks reads as missing. */
  function Get(row: Row, column: string): Cell {
    if column in row then row[column] else Null
  }

  /** The mask df['record_type'] == kind: only a text cell equal to `kind` matches. */
  predicate IsKind(row: Row, kind: string) {
    Get(row, "record_type") == Text(kind)
  }

  /** df[df['record_type'] == kind]: the matching rows, in their original order. */
  function RowsOfKind(rows: seq<Row>, kind: string): (r: seq<Row>)
    ensures |r| <= |rows|
    ensures forall i :: 0 <= i < |r| ==> IsKind(r[i], kind)
    ensures forall x :: x in r <==> x in rows && IsKind(x, kind)
  {
    if rows == [] then []
    else (if IsKind(rows[0], kind) then [rows[0]] else []) + RowsOfKind(rows[1..], kind)
  }

  /** Filtering commutes with concatenation, so it keeps the rows' relative order. */
  lemma {:induction false} RowsOfKindAppend(a: seq<Row>, b: seq<Row>, kind: string)
    ensures RowsOfKind(a + b, kind) == RowsOfKind(a, kind) + RowsOfKind(b, kind)
  {
    if a != [] {
      assert (a + b)[1..] == a[1..] + b;
      RowsOfKindAppend(a[1..], b, kind);
    } else {
      assert a + b == b;
    }
  }

  /** The first candidate that names a column, or None when none does. */
  function FirstPresent(candidates: seq<string>, columns: seq<string>): (r: Option<string>)
    ensures r.None? <==> forall i :: 0 <= i < |candidates| ==> candidates[i] !in columns
    ensures forall k :: 0 <= k < |candidates| && candidates[k] in columns
                          && (forall j :: 0 <= j < k ==> candidates[j] !in columns)
                        ==> r == Some(candidates[k])
  {
    if candidates == [] then None
    else if candidates[0] in columns then Some(candidates[0])
    else FirstPresent(candidates[1..], columns)
  }

  /** [c for c in candidates if c in columns]. */
  function Present(candidates: seq<string>, columns: seq<string>): (r: seq<string>)
    ensures forall c :: c in r <==> c in candidates && c in columns
    ensures Distinct(candidates) ==> Distinct(r)
  {
    if candidates == [] then []
    else (if candidates[0] in columns then [candidates[0]] else []) + Present(candidates[1..], columns)
  }

  /** The comprehension keeps the candidates' order: it commutes with concatenation. */
  lemma {:induction false} PresentAppend(a: seq<string>, b: seq<string>, columns: seq<string>)
    ensures Present(a + b, columns) == Present(a, columns) + Present(b, columns)
  {
    if a != [] {
      assert (a + b)[1..] == a[1..] + b;
      PresentAppend(a[1..], b, columns);
    } else {
      assert a + b == b;
    }
  }

  /** row[columns]: the row restricted to `columns`. */
  function Project(row: Row, columns: seq<string>): (r: Row)
    ensures r.Keys == ColumnSet(columns)
    ensures forall c :: c in columns ==> r[c] == Get(row, c)
  {
    map c | c in columns :: Get(row, c)
  }

  /** df[columns] on each row. */
  function ProjectRows(rows: seq<Row>, columns: seq<string>): (r: seq<Row>)
    ensures |r| == |rows|
    ensures forall i :: 0 <= i < |rows| ==> r[i] == Project(rows[i], columns)
  {
    if rows == [] then [] else [Project(rows[0], columns)] + ProjectRows(rows[1..], columns)
  }

  lemma {:induction false} ProjectRowsAppend(a: seq<Row>, b: seq<Row>, columns: seq<string>)
    ensures ProjectRows(a + b, columns) == ProjectRows(a, columns) + ProjectRows(b, columns)
  {
    if a != [] {
      assert (a + b)[1..] == a[1..] + b;
      ProjectRowsAppend(a[1..], b, columns);
    }
  }

  /** Projecting two arrangements of the same rows gives two arrangements of
      the same projected rows. */
  lemma {:induction false} ProjectRowsPermutation(a: seq<Row>, b: seq<Row>, columns: seq<string>)
    requires multiset(a) == multiset(b)
    ensures multiset(ProjectRows(a, columns)) == multiset(ProjectRows(b, columns))
    decreases |a|
  {
    if a == [] {
      assert b == [];
    } else {
      assert a[0] in multiset(b);
      var j :| 0 <= j < |b| && b[j] == a[0];
      var rest := b[..j] + b[j + 1..];
      assert b == b[..j] + [b[j]] + b[j + 1..];
      assert a == [a[0]] + a[1..];
      assert multiset(b) == multiset(b[..j]) + multiset{b[j]} + multiset(b[j + 1..]);
      assert multiset(rest) == multiset(b[..j]) + multiset(b[j + 1..]);
      assert multiset(a) == multiset{a[0]} + multiset(a[1..]);
      assert multiset(a[1..]) == multiset(a) - multiset{a[0]};
      assert multiset(rest) == multiset(b) - multiset{b[j]};
      ProjectRowsPermutation(a[1..], rest, columns);
      ProjectRowsAppend(b[..j] + [b[j]], b[j + 1..], columns);
      ProjectRowsAppend(b[..j], [b[j]], columns);
      ProjectRowsAppend(b[..j], b[j + 1..], columns);
      ProjectRowsAppend([a[0]], a[1..], columns);
    }
  }

  /** DataFrame.head(20): the first min(20, n) rows. */
  function Head<T>(rows: seq<T>): (r: seq<T>)
    ensures |r| == if |rows| < HeadSize then |rows| else HeadSize
    ensures forall i :: 0 <= i < |r| ==> r[i] == rows[i]
    ensures multiset(r) <= multiset(rows)
  {
    var n := if |rows| < HeadSize then |rows| else HeadSize;
    assert rows == rows[..n] + rows[n..];
    rows[..n]
  }
}
