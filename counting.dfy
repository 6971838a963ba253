/** Series.value_counts over one column of the table: each distinct value
    with the number of rows holding it, largest count first, with or
    without a bucket for missing values; and the dict that to_dict() makes
    of it. */
module Counting {
  import opened Tables

  /** One line of a value_counts result. */
  datatype Entry = Entry(value: Cell, count: nat)

  /** Number of rows whose `column` cell equals `v`. */
  function Occurrences(rows: seq<Row>, column: string, v: Cell): (n: nat)
    ensures n <= |rows|
  {
    if rows == [] then 0
    else (if Get(rows[0], column) == v then 1 else 0) + Occurrences(rows[1..], column, v)
  }

  /** A value that some row holds is counted at least once. */
  lemma {:induction false} OccurrencesAt(rows: seq<Row>, column: string, k: nat)
    requires k < |rows|
    ensures Occurrences(rows, column, Get(rows[k], column)) > 0
  {
    if k > 0 {
      assert rows[1..][k - 1] == rows[k];
      OccurrencesAt(rows[1..], column, k - 1);
    }
  }

  /** value_counts(dropna=True) leaves the missing values out; dropna=False keeps them. */
  predicate Counted(v: Cell, dropNull: bool) {
    !(dropNull && v == Null)
  }

  predicate Has(es: seq<Entry>, v: Cell) {
    es != [] && (es[0].value == v || Has(es[1..], v))
  }

  /** The count listed for `v`, or 0 when `v` is not listed. */
  function CountIn(es: seq<Entry>, v: Cell): nat {
    if es == [] then 0 else if es[0].value == v then es[0].count else CountIn(es[1..], v)
  }

  /** The sum of the listed counts. */
  function Total(es: seq<Entry>): nat {
    if es == [] then 0 else es[0].count + Total(es[1..])
  }

  predicate DistinctValues(es: seq<Entry>) {
    es == [] || (!Has(es[1..], es[0].value) && DistinctValues(es[1..]))
  }

  predicate AllPositive(es: seq<Entry>) {
    forall i :: 0 <= i < |es| ==> es[i].count > 0
  }

  /** Neighbouring counts never increase. */
  predicate NonIncreasing(es: seq<Entry>) {
    |es| < 2 || (es[0].count >= es[1].count && NonIncreasing(es[1..]))
  }

  /** One more row holding `v`. */
  function Bump(es: seq<Entry>, v: Cell): (r: seq<Entry>)
    requires DistinctValues(es)
    ensures DistinctValues(r)
    ensures forall w :: Has(r, w) <==> Has(es, w) || w == v
    ensures forall w :: CountIn(r, w) == CountIn(es, w) + (if w == v then 1 else 0)
    ensures Total(r) == Total(es) + 1
    ensures AllPositive(es) ==> AllPositive(r)
  {
    if es == [] then [Entry(v, 1)]
    else if es[0].value == v then [Entry(v, es[0].count + 1)] + es[1..]
    else [es[0]] + Bump(es[1..], v)
  }

  /** The unsorted tally of a column. */
  function Tally(rows: seq<Row>, column: string, dropNull: bool): (r: seq<Entry>)
    ensures DistinctValues(r) && AllPositive(r)
    ensures forall v :: CountIn(r, v) == if Counted(v, dropNull) then Occurrences(rows, column, v) else 0
    ensures forall v :: Has(r, v) <==> Counted(v, dropNull) && Occurrences(rows, column, v) > 0
    ensures Total(r) == |rows| - if dropNull then Occurrences(rows, column, Null) else 0
  {
    if rows == [] then []
    else
      var rest := Tally(rows[1..], column, dropNull);
      var c := Get(rows[0], column);
      if Counted(c, dropNull) then Bump(rest, c) else rest
  }

  /** Places `e` before the first entry with a smaller count. */
  function Insert(e: Entry, es: seq<Entry>): (r: seq<Entry>)
    ensures |r| == |es| + 1
    ensures r[0] == e || (es != [] && r[0] == es[0])
    ensures multiset(r) == multiset(es) + multiset{e}
    ensures NonIncreasing(es) ==> NonIncreasing(r)
  {
    if es == [] || es[0].count < e.count then [e] + es
    else
      assert es == [es[0]] + es[1..];
      [es[0]] + Insert(e, es[1..])
  }

  /** Inserting lists `e` once more and changes no other line. */
  lemma {:induction false} InsertEntries(e: Entry, es: seq<Entry>)
    ensures forall w :: Has(Insert(e, es), w) <==> Has(es, w) || w == e.value
    ensures !Has(es, e.value) ==> forall w :: CountIn(Insert(e, es), w) == if w == e.value then e.count else CountIn(es, w)
    ensures Total(Insert(e, es)) == Total(es) + e.count
    ensures DistinctValues(es) && !Has(es, e.value) ==> DistinctValues(Insert(e, es))
    ensures AllPositive(es) && e.count > 0 ==> AllPositive(Insert(e, es))
  {
    InsertListed(e, es);
    if DistinctValues(es) && !Has(es, e.value) {
      InsertDistinct(e, es);
    }
    var r := Insert(e, es);
    if AllPositive(es) && e.count > 0 {
      forall i | 0 <= i < |r|
        ensures r[i].count > 0
      {
        assert r[i] in multiset(r);
        assert r[i] in multiset(es) || r[i] == e;
      }
    }
  }

  /** The values and counts Insert lists. */
  lemma {:induction false} InsertListed(e: Entry, es: seq<Entry>)
    ensures forall w :: Has(Insert(e, es), w) <==> Has(es, w) || w == e.value
    ensures !Has(es, e.value) ==> forall w :: CountIn(Insert(e, es), w) == if w == e.value then e.count else CountIn(es, w)
    ensures Total(Insert(e, es)) == Total(es) + e.count
  {
    if es != [] && es[0].count >= e.count {
      InsertListed(e, es[1..]);
      var r := Insert(e, es);
      assert r == [es[0]] + Insert(e, es[1..]);
      assert r[1..] == Insert(e, es[1..]);
    }
  }

  lemma {:induction false} InsertDistinct(e: Entry, es: seq<Entry>)
    requires DistinctValues(es) && !Has(es, e.value)
    ensures DistinctValues(Insert(e, es))
  {
    if es != [] && es[0].count >= e.count {
      InsertDistinct(e, es[1..]);
      InsertListed(e, es[1..]);
      var r := Insert(e, es);
      assert r == [es[0]] + Insert(e, es[1..]);
      assert r[1..] == Insert(e, es[1..]);
    }
  }

  /** Orders entries by non-increasing count. */
  function SortByCount(es: seq<Entry>): (r: seq<Entry>)
    ensures |r| == |es|
    ensures multiset(r) == multiset(es)
    ensures NonIncreasing(r)
  {
    if es == [] then []
    else
      assert es == [es[0]] + es[1..];
      Insert(es[0], SortByCount(es[1..]))
  }

  /** Sorting lists the same values with the same counts. */
  lemma {:induction false} SortByCountEntries(es: seq<Entry>)
    ensures forall w :: Has(SortByCount(es), w) <==> Has(es, w)
    ensures Total(SortByCount(es)) == Total(es)
    ensures DistinctValues(es) ==> DistinctValues(SortByCount(es))
    ensures DistinctValues(es) ==> forall w :: CountIn(SortByCount(es), w) == CountIn(es, w)
    ensures AllPositive(es) ==> AllPositive(SortByCount(es))
  {
    SortByCountListed(es);
    if DistinctValues(es) {
      SortByCountCounts(es);
    }
    if AllPositive(es) {
      var r := SortByCount(es);
      forall i | 0 <= i < |r|
        ensures r[i].count > 0
      {
        assert r[i] in multiset(r);
        assert r[i] in multiset(es);
      }
    }
  }

  /** Sorting keeps the listed values and the total. */
  lemma {:induction false} SortByCountListed(es: seq<Entry>)
    ensures forall w :: Has(SortByCount(es), w) <==> Has(es, w)
    ensures Total(SortByCount(es)) == Total(es)
  {
    if es != [] {
      var rest := SortByCount(es[1..]);
      assert SortByCount(es) == Insert(es[0], rest);
      SortByCountListed(es[1..]);
      InsertListed(es[0], rest);
      assert forall w :: Has(es, w) <==> es[0].value == w || Has(es[1..], w);
      assert Total(es) == es[0].count + Total(es[1..]);
    }
  }

  /** Sorting distinct entries keeps them distinct and keeps each count. */
  lemma {:induction false} SortByCountCounts(es: seq<Entry>)
    requires DistinctValues(es)
    ensures DistinctValues(SortByCount(es))
    ensures forall w :: CountIn(SortByCount(es), w) == CountIn(es, w)
  {
    if es != [] {
      var rest := SortByCount(es[1..]);
      assert SortByCount(es) == Insert(es[0], rest);
      SortByCountCounts(es[1..]);
      SortByCountListed(es[1..]);
      assert !Has(rest, es[0].value);
      InsertListed(es[0], rest);
      InsertDistinct(es[0], rest);
      assert forall w :: CountIn(es, w) == if es[0].value == w then es[0].count else CountIn(es[1..], w);
    }
  }

  lemma {:induction false} NonIncreasingPairwise(es: seq<Entry>)
    requires NonIncreasing(es)
    ensures forall i, j :: 0 <= i < j < |es| ==> es[i].count >= es[j].count
  {
    if |es| >= 2 {
      NonIncreasingPairwise(es[1..]);
      forall i, j | 0 <= i < j < |es| ensures es[i].count >= es[j].count {
        if i > 0 {
          assert es[i] == es[1..][i - 1] && es[j] == es[1..][j - 1];
        } else if j > 1 {
          assert es[1] == es[1..][0] && es[j] == es[1..][j - 1];
        }
      }
    }
  }

  lemma {:induction false} DistinctValuesPairwise(es: seq<Entry>)
    requires DistinctValues(es)
    ensures forall i, j :: 0 <= i < j < |es| ==> es[i].value != es[j].value
  {
    if es != [] {
      DistinctValuesPairwise(es[1..]);
      forall i, j | 0 <= i < j < |es| ensures es[i].value != es[j].value {
        if i > 0 {
          assert es[i] == es[1..][i - 1] && es[j] == es[1..][j - 1];
        } else {
          HasAt(es[1..], j - 1);
        }
      }
    }
  }

  /** Every listed value is found by Has. */
  lemma {:induction false} HasAt(es: seq<Entry>, i: nat)
    requires i < |es|
    ensures Has(es, es[i].value)
  {
    if i > 0 {
      HasAt(es[1..], i - 1);
    }
  }

  /** Has finds a value only where it is listed. */
  lemma {:induction false} HasIndex(es: seq<Entry>, v: Cell) returns (i: nat)
    requires Has(es, v)
    ensures i < |es| && es[i].value == v
  {
    if es[0].value == v {
      i := 0;
    } else {
      var k := HasIndex(es[1..], v);
      i := k + 1;
    }
  }

  /** With distinct values, the count listed at an index is the count of its value. */
  lemma {:induction false} CountInAt(es: seq<Entry>, i: nat)
    requires DistinctValues(es) && i < |es|
    ensures CountIn(es, es[i].value) == es[i].count
  {
    if i > 0 {
      HasAt(es[1..], i - 1);
      CountInAt(es[1..], i - 1);
    }
  }

  /** df[column].value_counts(dropna=dropNull): each counted value once, with
      the number of rows holding it, largest count first, the counts adding
      up to the number of counted rows. */
  function ValueCounts(rows: seq<Row>, column: string, dropNull: bool): (r: seq<Entry>)
    ensures DistinctValues(r) && AllPositive(r)
    ensures forall i, j :: 0 <= i < j < |r| ==> r[i].value != r[j].value
    ensures forall i, j :: 0 <= i < j < |r| ==> r[i].count >= r[j].count
    ensures forall i :: 0 <= i < |r| ==> Counted(r[i].value, dropNull)
                                         && r[i].count == Occurrences(rows, column, r[i].value)
    ensures forall v :: Has(r, v) <==> Counted(v, dropNull) && Occurrences(rows, column, v) > 0
    ensures forall v :: CountIn(r, v) == if Counted(v, dropNull) then Occurrences(rows, column, v) else 0
    ensures Total(r) == |rows| - if dropNull then Occurrences(rows, column, Null) else 0
  {
    var tally := Tally(rows, column, dropNull);
    var r := SortByCount(tally);
    SortByCountEntries(tally);
    NonIncreasingPairwise(r);
    DistinctValuesPairwise(r);
    assert forall i :: 0 <= i < |r| ==> Has(r, r[i].value) && CountIn(r, r[i].value) == r[i].count by {
      forall i | 0 <= i < |r| ensures Has(r, r[i].value) && CountIn(r, r[i].value) == r[i].count {
        HasAt(r, i);
        CountInAt(r, i);
      }
    }
    assert forall v :: CountIn(r, v) == CountIn(tally, v);
    assert forall v :: Has(r, v) <==> Has(tally, v);
    assert forall i :: 0 <= i < |r| ==> Counted(r[i].value, dropNull)
                                         && r[i].count == Occurrences(rows, column, r[i].value);
    r
  }

  /** Series.to_dict(): the value-to-count dict. */
  function ToDict(es: seq<Entry>): (m: map<Cell, nat>)
    ensures forall v :: v in m <==> Has(es, v)
    ensures forall v :: v in m ==> m[v] == CountIn(es, v)
  {
    if es == [] then map[] else ToDict(es[1..])[es[0].value := es[0].count]
  }

  /** The sum of the values of a dict. */
  ghost function MapTotal(m: map<Cell, nat>): nat
    decreases |m|
  {
    if m == map[] then 0
    else
      var k :| k in m;
      assert |m - {k}| < |m| by {
        assert (m - {k}).Keys == m.Keys - {k};
      }
      m[k] + MapTotal(m - {k})
  }

  /** MapTotal does not depend on which key it takes first. */
  lemma {:induction false} MapTotalRemove(m: map<Cell, nat>, k: Cell)
    requires k in m
    ensures MapTotal(m) == m[k] + MapTotal(m - {k})
    decreases |m|
  {
    var k' :| k' in m && MapTotal(m) == m[k'] + MapTotal(m - {k'});
    if k' != k {
      assert (m - {k'}).Keys == m.Keys - {k'};
      assert (m - {k}).Keys == m.Keys - {k};
      MapTotalRemove(m - {k'}, k);
      MapTotalRemove(m - {k}, k');
      assert m - {k'} - {k} == m - {k} - {k'};
    }
  }

  /** The dict of a value_counts result holds the same total. */
  lemma {:induction false} ToDictTotal(es: seq<Entry>)
    requires DistinctValues(es)
    ensures MapTotal(ToDict(es)) == Total(es)
  {
    if es != [] {
      var rest := ToDict(es[1..]);
      ToDictTotal(es[1..]);
      var m := rest[es[0].value := es[0].count];
      assert es[0].value !in rest;
      MapTotalRemove(m, es[0].value);
      assert m - {es[0].value} == rest;
    }
  }
}
