/** The EthiopiaFIData facade over the unified financial-inclusion table:
    the column-presence rules, the read-only summaries (functions of the
    table), and the two places that change the table in place (date
    coercion when it is built, add_records). */
module DataLoader {
  import opened Tables
  import opened Counting
  import opened DateOrder

  /** Looking up an absent column with df[column] raises KeyError. */
  datatype Result<+T> = Ok(value: T) | KeyError(column: string)

  /** The date columns, in the priority order of _get_date_column. */
  const DateColumnNames: seq<string> := ["observation_date", "event_date", "date"]

  /** _get_date_column: the first of observation_date, event_date, date that
      the table has; None only when it has none of them. */
  function DateColumn(t: Table): (r: Option<string>)
    ensures r == Some("observation_date") <==> "observation_date" in t.columns
    ensures r == Some("event_date") <==> "observation_date" !in t.columns && "event_date" in t.columns
    ensures r == Some("date") <==>
              "observation_date" !in t.columns && "event_date" !in t.columns && "date" in t.columns
    ensures r == None <==>
              "observation_date" !in t.columns && "event_date" !in t.columns && "date" !in t.columns
  {
    var names := DateColumnNames;
    assert names[0] == "observation_date" && names[1] == "event_date" && names[2] == "date";
    FirstPresent(names, t.columns)
  }

  /** indicator_code when the table has it, else indicator, else none. */
  function IndicatorColumn(t: Table): (r: Option<string>)
    ensures r == Some("indicator_code") <==> "indicator_code" in t.columns
    ensures r == Some("indicator") <==> "indicator_code" !in t.columns && "indicator" in t.columns
    ensures r == None <==> "indicator_code" !in t.columns && "indicator" !in t.columns
  {
    if "indicator_code" in t.columns then Some("indicator_code")
    else if "indicator" in t.columns then Some("indicator")
    else None
  }

  // ---------------------------------------------------------------------
  // get_record_counts

  datatype RecordCounts = RecordCounts(
    byRecordType: map<Cell, nat>,
    byPillar: map<Cell, nat>,
    bySourceType: map<Cell, nat>,
    byConfidence: map<Cell, nat>)

  /** df[column].value_counts(dropna=dropNull).to_dict() */
  function CountsDict(t: Table, column: string, dropNull: bool): (m: map<Cell, nat>)
    ensures forall v :: v in m <==> Counted(v, dropNull) && Occurrences(t.rows, column, v) > 0
    ensures forall v :: v in m ==> m[v] == Occurrences(t.rows, column, v)
  {
    ToDict(ValueCounts(t.rows, column, dropNull))
  }

  /** df.get(column, pd.Series()).value_counts(dropna=False).to_dict() */
  function OptionalCountsDict(t: Table, column: string): (m: map<Cell, nat>)
    ensures column !in t.columns ==> m == map[]
    ensures column in t.columns ==> forall v :: v in m <==> Occurrences(t.rows, column, v) > 0
    ensures column in t.columns ==> forall v :: v in m ==> m[v] == Occurrences(t.rows, column, v)
  {
    if column in t.columns then CountsDict(t, column, false) else map[]
  }

  /** get_record_counts: the four dicts, or the KeyError of the first of
      record_type, pillar that is missing. */
  function GetRecordCounts(t: Table): (r: Result<RecordCounts>)
    ensures "record_type" !in t.columns ==> r == KeyError("record_type")
    ensures "record_type" in t.columns && "pillar" !in t.columns ==> r == KeyError("pillar")
    ensures "record_type" in t.columns && "pillar" in t.columns ==> r.Ok?
    ensures r.Ok? ==>
              && (forall v :: v in r.value.byRecordType <==> v != Null && Occurrences(t.rows, "record_type", v) > 0)
              && (forall v :: v in r.value.byRecordType ==> r.value.byRecordType[v] == Occurrences(t.rows, "record_type", v))
              && (forall v :: v in r.value.byPillar <==> Occurrences(t.rows, "pillar", v) > 0)
              && (forall v :: v in r.value.byPillar ==> r.value.byPillar[v] == Occurrences(t.rows, "pillar", v))
              && ("source_type" !in t.columns ==> r.value.bySourceType == map[])
              && ("source_type" in t.columns ==>
                    forall v :: v in r.value.bySourceType <==> Occurrences(t.rows, "source_type", v) > 0)
              && ("source_type" in t.columns ==>
                    forall v :: v in r.value.bySourceType ==> r.value.bySourceType[v] == Occurrences(t.rows, "source_type", v))
              && ("confidence" !in t.columns ==> r.value.byConfidence == map[])
              && ("confidence" in t.columns ==>
                    forall v :: v in r.value.byConfidence <==> Occurrences(t.rows, "confidence", v) > 0)
              && ("confidence" in t.columns ==>
                    forall v :: v in r.value.byConfidence ==> r.value.byConfidence[v] == Occurrences(t.rows, "confidence", v))
  {
    if "record_type" !in t.columns then KeyError("record_type")
    else if "pillar" !in t.columns then KeyError("pillar")
    else Ok(RecordCounts(
      CountsDict(t, "record_type", true),
      CountsDict(t, "pillar", false),
      OptionalCountsDict(t, "source_type"),
      OptionalCountsDict(t, "confidence")))
  }

  /** by_pillar keeps a bucket for missing values, so its counts add up to the
      number of rows; by_record_type drops them, so its counts add up to the
      rows whose record_type is present; by_source_type and by_confidence
      keep missing values like by_pillar. */
  lemma RecordCountsTotals(t: Table)
    requires GetRecordCounts(t).Ok?
    ensures MapTotal(GetRecordCounts(t).value.byPillar) == |t.rows|
    ensures MapTotal(GetRecordCounts(t).value.byRecordType)
            == |t.rows| - Occurrences(t.rows, "record_type", Null)
    ensures "source_type" in t.columns ==> MapTotal(GetRecordCounts(t).value.bySourceType) == |t.rows|
    ensures "confidence" in t.columns ==> MapTotal(GetRecordCounts(t).value.byConfidence) == |t.rows|
  {
    ToDictTotal(ValueCounts(t.rows, "record_type", true));
    ToDictTotal(ValueCounts(t.rows, "pillar", false));
    ToDictTotal(ValueCounts(t.rows, "source_type", false));
    ToDictTotal(ValueCounts(t.rows, "confidence", false));
  }

  /** A table with record_type and pillar but neither source_type nor
      confidence, whose three rows read (kind1, pillar1), (kind1, pillar2),
      (kind2, pillar1). */
  predicate ThreeRowExample(t: Table, kind1: Cell, kind2: Cell, pillar1: Cell, pillar2: Cell) {
    && "record_type" in t.columns && "pillar" in t.columns
    && "source_type" !in t.columns && "confidence" !in t.columns
    && |t.rows| == 3
    && Get(t.rows[0], "record_type") == kind1 && Get(t.rows[0], "pillar") == pillar1
    && Get(t.rows[1], "record_type") == kind1 && Get(t.rows[1], "pillar") == pillar2
    && Get(t.rows[2], "record_type") == kind2 && Get(t.rows[2], "pillar") == pillar1
  }

  lemma {:induction false} ExampleOccurrences(t: Table, kind1: Cell, kind2: Cell, pillar1: Cell, pillar2: Cell, v: Cell)
    requires ThreeRowExample(t, kind1, kind2, pillar1, pillar2)
    ensures Occurrences(t.rows, "record_type", v)
            == (if v == kind1 then 2 else 0) + (if v == kind2 then 1 else 0)
    ensures Occurrences(t.rows, "pillar", v)
            == (if v == pillar1 then 2 else 0) + (if v == pillar2 then 1 else 0)
  {
    var rows := t.rows;
    assert rows[1..][0] == rows[1] && rows[1..][1..][0] == rows[2] && rows[1..][1..][1..] == [];
    assert Occurrences(rows[1..][1..], "record_type", v) == if v == kind2 then 1 else 0;
    assert Occurrences(rows[1..][1..], "pillar", v) == if v == pillar1 then 1 else 0;
    assert Occurrences(rows[1..], "record_type", v)
           == (if v == kind1 then 1 else 0) + (if v == kind2 then 1 else 0);
    assert Occurrences(rows[1..], "pillar", v)
           == (if v == pillar2 then 1 else 0) + (if v == pillar1 then 1 else 0);
  }

  /** Rows (observation, A), (observation, B), (event, A) give by_record_type
      {observation: 2, event: 1} and by_pillar {A: 2, B: 1}, here for any two
      distinct present kinds and any two distinct pillars; the absent
      source_type and confidence columns give empty dicts. */
  lemma RecordCountsExample(t: Table, kind1: Cell, kind2: Cell, pillar1: Cell, pillar2: Cell)
    requires ThreeRowExample(t, kind1, kind2, pillar1, pillar2)
    requires kind1 != Null && kind2 != Null && kind1 != kind2 && pillar1 != pillar2
    ensures GetRecordCounts(t)
            == Ok(RecordCounts(map[kind1 := 2, kind2 := 1], map[pillar1 := 2, pillar2 := 1], map[], map[]))
  {
    forall v {
      ExampleOccurrences(t, kind1, kind2, pillar1, pillar2, v);
    }
    TwoValueCounts(t, "record_type", true, kind1, kind2);
    TwoValueCounts(t, "pillar", false, pillar1, pillar2);
  }

  /** A column in which x occurs twice, y once and nothing else occurs counts
      to the dict {x: 2, y: 1}. */
  lemma TwoValueCounts(t: Table, column: string, dropNull: bool, x: Cell, y: Cell)
    requires x != y && Counted(x, dropNull) && Counted(y, dropNull)
    requires forall v :: Occurrences(t.rows, column, v) == (if v == x then 2 else 0) + (if v == y then 1 else 0)
    ensures CountsDict(t, column, dropNull) == map[x := 2, y := 1]
  {
    var m := CountsDict(t, column, dropNull);
    forall v
      ensures v in m <==> v == x || v == y
    {
      assert Occurrences(t.rows, column, v) == (if v == x then 2 else 0) + (if v == y then 1 else 0);
    }
    assert Occurrences(t.rows, column, x) == 2 && Occurrences(t.rows, column, y) == 1;
    MapOfTwo(m, x, y);
  }

  lemma MapOfTwo(m: map<Cell, nat>, x: Cell, y: Cell)
    requires x != y
    requires forall v :: v in m <==> v == x || v == y
    requires x in m && m[x] == 2 && y in m && m[y] == 1
    ensures m == map[x := 2, y := 1]
  {
    assert m.Keys == {x, y};
  }

  // ---------------------------------------------------------------------
  // get_temporal_range

  /** The date extent of the rows of one record type: NoMatchingRows where
      pandas gives None (no such rows); a None bound where it gives NaT (rows,
      but no valid date). */
  datatype Extent = NoMatchingRows | Extent(earliest: Option<int>, latest: Option<int>)

  datatype TemporalRange =
    | NoDateColumnFound
    | TemporalRange(column: string, overallMin: Option<int>, overallMax: Option<int>,
                    observations: Extent, events: Extent)

  ghost predicate Describes(e: Extent, rows: seq<Row>, column: string) {
    && (e == NoMatchingRows <==> rows == [])
    && (e.Extent? ==> IsEarliest(e.earliest, rows, column) && IsLatest(e.latest, rows, column))
  }

  function ExtentOf(rows: seq<Row>, column: string): (e: Extent)
    ensures Describes(e, rows, column)
  {
    if rows == [] then NoMatchingRows else Extent(MinDate(rows, column), MaxDate(rows, column))
  }

  /** get_temporal_range: the error result exactly when there is no date
      column; otherwise the overall extent and the extents of the
      observation rows and of the event rows, each NoMatchingRows exactly
      when the table has no row of that type. */
  function GetTemporalRange(t: Table): (r: Result<TemporalRange>)
    ensures DateColumn(t).None? <==> r == Ok(NoDateColumnFound)
    ensures DateColumn(t).Some? && "record_type" !in t.columns <==> r == KeyError("record_type")
    ensures DateColumn(t).Some? && "record_type" in t.columns ==> r.Ok? && r.value.TemporalRange?
    ensures r.Ok? && r.value.TemporalRange? ==>
              && DateColumn(t) == Some(r.value.column)
              && IsEarliest(r.value.overallMin, t.rows, r.value.column)
              && IsLatest(r.value.overallMax, t.rows, r.value.column)
              && Describes(r.value.observations, RowsOfKind(t.rows, "observation"), r.value.column)
              && Describes(r.value.events, RowsOfKind(t.rows, "event"), r.value.column)
              && (r.value.observations == NoMatchingRows <==> forall x :: x in t.rows ==> !IsKind(x, "observation"))
              && (r.value.events == NoMatchingRows <==> forall x :: x in t.rows ==> !IsKind(x, "event"))
  {
    match DateColumn(t)
    case None => Ok(NoDateColumnFound)
    case Some(column) =>
      if "record_type" !in t.columns then KeyError("record_type")
      else
        var observations := RowsOfKind(t.rows, "observation");
        var events := RowsOfKind(t.rows, "event");
        assert observations == [] <==> forall x :: x in t.rows ==> !IsKind(x, "observation") by {
          if observations != [] { assert observations[0] in observations; }
        }
        assert events == [] <==> forall x :: x in t.rows ==> !IsKind(x, "event") by {
          if events != [] { assert events[0] in events; }
        }
        Ok(TemporalRange(column, MinDate(t.rows, column), MaxDate(t.rows, column),
                         ExtentOf(observations, column), ExtentOf(events, column)))
  }

  // ---------------------------------------------------------------------
  // list_unique_indicators

  /** One row of value_counts().reset_index(): the value and its count. */
  function CoverageRow(column: string, e: Entry): Row {
    map[column := e.value, "count" := Number(e.count)]
  }

  function CoverageRows(column: string, counts: seq<Entry>): (rows: seq<Row>)
    ensures |rows| == |counts|
    ensures forall i :: 0 <= i < |rows| ==> rows[i] == CoverageRow(column, counts[i])
  {
    seq(|counts|, i requires 0 <= i < |counts| => CoverageRow(column, counts[i]))
  }

  /** list_unique_indicators: an empty table when neither indicator column
      exists, else the value_counts of the indicator column as a two-column
      table. */
  function ListUniqueIndicators(t: Table): (r: Table)
    ensures IndicatorColumn(t).None? <==> r == EmptyTable
    ensures IndicatorColumn(t).Some? ==> r.columns == [IndicatorColumn(t).value, "count"]
  {
    match IndicatorColumn(t)
    case None => EmptyTable
    case Some(column) => Table([column, "count"], CoverageRows(column, ValueCounts(t.rows, column, true)))
  }

  /** Each indicator row holds a distinct present value and the number of
      table rows holding it, largest count first. */
  lemma ListUniqueIndicatorsCounts(t: Table)
    requires IndicatorColumn(t).Some?
    ensures var column := IndicatorColumn(t).value;
            var rows := ListUniqueIndicators(t).rows;
            && (forall i :: 0 <= i < |rows| ==>
                  && rows[i].Keys == {column, "count"}
                  && Get(rows[i], column) != Null
                  && Get(rows[i], "count") == Number(Occurrences(t.rows, column, Get(rows[i], column))))
            && (forall i, j :: 0 <= i < j < |rows| ==> Get(rows[i], column) != Get(rows[j], column))
            && (forall i, j :: 0 <= i < j < |rows| ==>
                  Get(rows[i], "count").number >= Get(rows[j], "count").number)
  {
    var column := IndicatorColumn(t).value;
    var counts := ValueCounts(t.rows, column, true);
    assert ListUniqueIndicators(t).rows == CoverageRows(column, counts);
    assert "count" != column by {
      assert column == "indicator_code" || column == "indicator";
      assert "count"[1] != column[1];
    }
    assert forall i :: 0 <= i < |counts| ==> Counted(counts[i].value, true);
    CoverageRowsCounts(column, counts, t.rows);
  }

  /** The coverage rows of a count list of distinct non-null values, counted
      over `source`, in non-increasing order. */
  lemma CoverageRowsCounts(column: string, counts: seq<Entry>, source: seq<Row>)
    requires column != "count"
    requires forall i :: 0 <= i < |counts| ==>
               counts[i].value != Null && counts[i].count == Occurrences(source, column, counts[i].value)
    requires forall i, j :: 0 <= i < j < |counts| ==> counts[i].value != counts[j].value
    requires forall i, j :: 0 <= i < j < |counts| ==> counts[i].count >= counts[j].count
    ensures var rows := CoverageRows(column, counts);
            && (forall i :: 0 <= i < |rows| ==>
                  && rows[i].Keys == {column, "count"}
                  && Get(rows[i], column) != Null
                  && Get(rows[i], "count") == Number(Occurrences(source, column, Get(rows[i], column))))
            && (forall i, j :: 0 <= i < j < |rows| ==> Get(rows[i], column) != Get(rows[j], column))
            && (forall i, j :: 0 <= i < j < |rows| ==>
                  Get(rows[i], "count").number >= Get(rows[j], "count").number)
  {
    var rows := CoverageRows(column, counts);
    assert forall i :: 0 <= i < |rows| ==>
             Get(rows[i], column) == counts[i].value && Get(rows[i], "count") == Number(counts[i].count);
  }

  /** Every present indicator value of the table is listed. */
  lemma ListUniqueIndicatorsCover(t: Table, k: nat)
    requires IndicatorColumn(t).Some?
    requires k < |t.rows| && Get(t.rows[k], IndicatorColumn(t).value) != Null
    ensures var column := IndicatorColumn(t).value;
            var rows := ListUniqueIndicators(t).rows;
            exists i :: 0 <= i < |rows| && Get(rows[i], column) == Get(t.rows[k], column)
  {
    var column := IndicatorColumn(t).value;
    var counts := ValueCounts(t.rows, column, true);
    var rows := ListUniqueIndicators(t).rows;
    assert rows == CoverageRows(column, counts);
    OccurrencesAt(t.rows, column, k);
    var i := HasIndex(counts, Get(t.rows[k], column));
    assert Get(rows[i], column) == Get(t.rows[k], column);
  }

  // ---------------------------------------------------------------------
  // get_events_summary and get_impact_links_summary

  /** The events summary's candidate columns; the second is the date column,
      or the label event_date when there is none. */
  function EventColumns(dateColumn: Option<string>): seq<string> {
    ["category", if dateColumn.Some? then dateColumn.value else "event_date",
     "description", "event_description", "notes", "text", "source_name", "event_name"]
  }

  const ImpactLinkColumns: seq<string> :=
    ["parent_id", "pillar", "related_indicator", "impact_direction",
     "impact_magnitude", "lag_months", "evidence_basis"]

  /** The event rows, sorted by the date column when the table has one. */
  function OrderedEvents(t: Table): (r: seq<Row>)
    ensures DateColumn(t).None? ==> r == RowsOfKind(t.rows, "event")
    ensures DateColumn(t).Some? ==>
              multiset(r) == multiset(RowsOfKind(t.rows, "event")) && SortedByDate(r, DateColumn(t).value)
  {
    var events := RowsOfKind(t.rows, "event");
    match DateColumn(t)
    case Some(column) => SortByDate(events, column)
    case None => events
  }

  /** The candidate columns of the events summary that the table has. */
  function EventsAvailable(t: Table): seq<string> {
    Present(EventColumns(DateColumn(t)), t.columns)
  }

  /** get_events_summary: the event rows, sorted by the date column when
      there is one, cut to the first 20, restricted to the candidate columns
      the table has (all columns when it has none of them). */
  function GetEventsSummary(t: Table): (r: Result<Table>)
    ensures "record_type" !in t.columns <==> r == KeyError("record_type")
    ensures "record_type" in t.columns ==> r.Ok?
    ensures r.Ok? ==> (r.value == EmptyTable <==> RowsOfKind(t.rows, "event") == [])
  {
    if "record_type" !in t.columns then KeyError("record_type")
    else if RowsOfKind(t.rows, "event") == [] then Ok(EmptyTable)
    else
      var available := EventsAvailable(t);
      if available == [] then Ok(Table(t.columns, Head(OrderedEvents(t))))
      else Ok(Table(available, Head(ProjectRows(OrderedEvents(t), available))))
  }

  /** At most 20 rows, on the candidate columns the table has (all of its
      columns when it has none of them). */
  lemma EventsSummaryShape(t: Table)
    requires "record_type" in t.columns && RowsOfKind(t.rows, "event") != []
    ensures var s := GetEventsSummary(t).value;
            var events := RowsOfKind(t.rows, "event");
            && |s.rows| == (if |events| < HeadSize then |events| else HeadSize)
            && (EventsAvailable(t) != [] ==> s.columns == EventsAvailable(t))
            && (EventsAvailable(t) == [] ==> s.columns == t.columns)
            && (forall c :: c in s.columns ==> c in t.columns)
  {
    assert |OrderedEvents(t)| == |RowsOfKind(t.rows, "event")|;
  }

  /** The event_date label is chosen only when no date column exists, and
      then it names no column: event_date is listed only as the detected
      date column. */
  lemma EventDateFallbackNeverMatches(t: Table)
    ensures "event_date" in EventsAvailable(t) ==> DateColumn(t) == Some("event_date")
  {
    match DateColumn(t)
    case None =>
      assert "event_date" !in t.columns;
    case Some(column) =>
      var candidates := EventColumns(DateColumn(t));
      assert candidates == ["category", column] + ["description", "event_description", "notes",
                                                   "text", "source_name", "event_name"];
      assert "event_date" != "event_name" by {
        assert "event_date"[6] != "event_name"[6];
      }
      assert "event_date" !in ["description", "event_description", "notes", "text", "source_name", "event_name"];
  }

  /** Every summary row is a distinct event row, restricted to the chosen columns. */
  lemma EventsSummaryRows(t: Table)
    requires "record_type" in t.columns && RowsOfKind(t.rows, "event") != []
    ensures var s := GetEventsSummary(t).value;
            var events := RowsOfKind(t.rows, "event");
            && (EventsAvailable(t) != [] ==> multiset(s.rows) <= multiset(ProjectRows(events, s.columns)))
            && (EventsAvailable(t) == [] ==> multiset(s.rows) <= multiset(events))
  {
    var events := RowsOfKind(t.rows, "event");
    var available := EventsAvailable(t);
    assert multiset(OrderedEvents(t)) == multiset(events);
    if available != [] {
      ProjectRowsPermutation(OrderedEvents(t), events, available);
    }
  }

  /** With a date column, it is among the summary's columns and the rows are
      in date order, missing dates last. */
  lemma EventsSummarySorted(t: Table)
    requires "record_type" in t.columns && RowsOfKind(t.rows, "event") != []
    requires DateColumn(t).Some?
    ensures var s := GetEventsSummary(t).value;
            DateColumn(t).value in s.columns && SortedByDate(s.rows, DateColumn(t).value)
  {
    var column := DateColumn(t).value;
    var available := EventsAvailable(t);
    assert column == EventColumns(DateColumn(t))[1];
    assert column in available;
    ProjectKeepsOrder(OrderedEvents(t), column, available);
    HeadKeepsOrder(ProjectRows(OrderedEvents(t), available), column);
  }

  /** The summary is the head of the events in date order: the kept rows are
      the first 20 of some date-sorted arrangement of all event rows, so no
      dropped event is dated earlier than a kept one. */
  lemma EventsSummaryEarliest(t: Table)
    requires "record_type" in t.columns && RowsOfKind(t.rows, "event") != []
    requires DateColumn(t).Some?
    ensures var s := GetEventsSummary(t).value;
            var events := RowsOfKind(t.rows, "event");
            var available := EventsAvailable(t);
            exists sorted: seq<Row> ::
              && multiset(sorted) == multiset(events)
              && SortedByDate(sorted, DateColumn(t).value)
              && (available != [] ==> s.rows == Head(ProjectRows(sorted, available)))
              && (available == [] ==> s.rows == Head(sorted))
  {
    var sorted := OrderedEvents(t);
    assert multiset(sorted) == multiset(RowsOfKind(t.rows, "event"));
    assert SortedByDate(sorted, DateColumn(t).value);
  }

  /** Without a date column nothing is sorted: the summary is the first 20
      event rows in table order, projected onto the chosen columns when any
      is present. */
  lemma EventsSummaryInTableOrder(t: Table)
    requires "record_type" in t.columns && RowsOfKind(t.rows, "event") != []
    requires DateColumn(t).None?
    ensures var s := GetEventsSummary(t).value;
            var events := RowsOfKind(t.rows, "event");
            var available := EventsAvailable(t);
            && (available != [] ==> s.rows == Head(ProjectRows(events, available)))
            && (available == [] ==> s.rows == Head(events))
  {
  }

  /** get_impact_links_summary: the impact_link rows in their original order,
      cut to the first 20, restricted to the candidate columns the table has
      (all columns when it has none of them). */
  function GetImpactLinksSummary(t: Table): (r: Result<Table>)
    ensures "record_type" !in t.columns <==> r == KeyError("record_type")
    ensures "record_type" in t.columns ==> r.Ok?
    ensures r.Ok? ==> (r.value == EmptyTable <==> RowsOfKind(t.rows, "impact_link") == [])
  {
    if "record_type" !in t.columns then KeyError("record_type")
    else
      var links := RowsOfKind(t.rows, "impact_link");
      if links == [] then Ok(EmptyTable)
      else
        var available := Present(ImpactLinkColumns, t.columns);
        if available == [] then Ok(Table(t.columns, Head(links)))
        else Ok(Table(available, Head(ProjectRows(links, available))))
  }

  /** At most 20 rows, the first impact_link rows in their original order,
      each restricted to the candidate columns the table has (kept whole,
      with all columns, when it has none of them). */
  lemma ImpactLinksSummaryShape(t: Table)
    requires "record_type" in t.columns && RowsOfKind(t.rows, "impact_link") != []
    ensures var s := GetImpactLinksSummary(t).value;
            var links := RowsOfKind(t.rows, "impact_link");
            var available := Present(ImpactLinkColumns, t.columns);
            && |s.rows| == (if |links| < HeadSize then |links| else HeadSize)
            && (available != [] ==> s.columns == available
                                    && forall i :: 0 <= i < |s.rows| ==> s.rows[i] == Project(links[i], available))
            && (available == [] ==> s.columns == t.columns
                                    && forall i :: 0 <= i < |s.rows| ==> s.rows[i] == links[i])
            && (forall c :: c in s.columns ==> c in t.columns)
  {
    var links := RowsOfKind(t.rows, "impact_link");
    var available := Present(ImpactLinkColumns, t.columns);
    var s := GetImpactLinksSummary(t).value;
    if available != [] {
      var projected := ProjectRows(links, available);
      assert s == Table(available, Head(projected));
      forall i | 0 <= i < |s.rows|
        ensures s.rows[i] == Project(links[i], available)
      {
        assert s.rows[i] == projected[i];
      }
    } else {
      assert s == Table(t.columns, Head(links));
    }
  }

  // ---------------------------------------------------------------------
  // plot_temporal_coverage (its guard clauses; the chart itself is not modelled)

  datatype PlotOutcome =
    | NoDateColumnToPlot
    | NoObservationsToPlot
    | NoValidDatesToPlot
    | NoIndicatorColumnToPlot
    | NothingAfterGrouping
    | Plotted(dateColumn: string, indicatorColumn: string)

  /** pd.to_datetime(..., errors='coerce') on one cell: dates stay, missing
      stays missing, anything else is parsed by `parse` or becomes NaT. */
  function ToDatetime(c: Cell, parse: Cell -> Option<int>): (d: Cell)
    ensures d.Null? || d.Date?
    ensures c.Date? ==> d == c
    ensures c.Null? ==> d.Null?
  {
    match c
    case Null => Null
    case Date(_) => c
    case _ => match parse(c) case Some(day) => Date(day) case None => Null
  }

  /** obs.dropna(subset=[column]). */
  function RowsWithValue(rows: seq<Row>, column: string): (r: seq<Row>)
    ensures forall x :: x in r <==> x in rows && Get(x, column) != Null
  {
    if rows == [] then []
    else (if Get(rows[0], column) != Null then [rows[0]] else []) + RowsWithValue(rows[1..], column)
  }

  /** Some row survives groupby: its re-coerced date is valid and its indicator is present. */
  predicate Groupable(rows: seq<Row>, dateColumn: string, indicatorColumn: string, parse: Cell -> Option<int>): (b: bool)
    ensures b <==> exists x :: x in rows && ToDatetime(Get(x, dateColumn), parse).Date? && Get(x, indicatorColumn) != Null
  {
    exists i :: 0 <= i < |rows| && ToDatetime(Get(rows[i], dateColumn), parse).Date?
                                && Get(rows[i], indicatorColumn) != Null
  }

  /** plot_temporal_coverage: which guard stops it, or that it draws. */
  function PlotTemporalCoverage(t: Table, parse: Cell -> Option<int>): (r: Result<PlotOutcome>)
    ensures DateColumn(t).None? <==> r == Ok(NoDateColumnToPlot)
    ensures DateColumn(t).Some? && "record_type" !in t.columns <==> r == KeyError("record_type")
    ensures r.KeyError? ==> r.column == "record_type"
    ensures r == Ok(NoObservationsToPlot) <==>
              DateColumn(t).Some? && "record_type" in t.columns && forall x :: x in t.rows ==> !IsKind(x, "observation")
    ensures r == Ok(NoValidDatesToPlot) <==>
              && DateColumn(t).Some? && "record_type" in t.columns
              && (exists x :: x in t.rows && IsKind(x, "observation"))
              && forall x :: x in t.rows && IsKind(x, "observation") ==> Get(x, DateColumn(t).value) == Null
    ensures r == Ok(NoIndicatorColumnToPlot) <==>
              && DateColumn(t).Some? && "record_type" in t.columns
              && (exists x :: x in t.rows && IsKind(x, "observation") && Get(x, DateColumn(t).value) != Null)
              && IndicatorColumn(t).None?
    ensures r == Ok(NothingAfterGrouping) <==>
              && DateColumn(t).Some? && "record_type" in t.columns && IndicatorColumn(t).Some?
              && (exists x :: x in t.rows && IsKind(x, "observation") && Get(x, DateColumn(t).value) != Null)
              && forall x :: x in t.rows && IsKind(x, "observation") && Get(x, DateColumn(t).value) != Null ==>
                   !ToDatetime(Get(x, DateColumn(t).value), parse).Date? || Get(x, IndicatorColumn(t).value) == Null
    ensures r.Ok? && r.value.Plotted? ==>
              && DateColumn(t) == Some(r.value.dateColumn)
              && IndicatorColumn(t) == Some(r.value.indicatorColumn)
              && exists x :: x in t.rows && IsKind(x, "observation")
                             && ToDatetime(Get(x, r.value.dateColumn), parse).Date?
                             && Get(x, r.value.indicatorColumn) != Null
  {
    match DateColumn(t)
    case None => Ok(NoDateColumnToPlot)
    case Some(dateColumn) =>
      if "record_type" !in t.columns then KeyError("record_type")
      else
        var observations := RowsOfKind(t.rows, "observation");
        if observations == [] then Ok(NoObservationsToPlot)
        else
          assert observations[0] in observations;
          var valid := RowsWithValue(observations, dateColumn);
          if valid == [] then Ok(NoValidDatesToPlot)
          else
            assert valid[0] in valid;
            match IndicatorColumn(t)
            case None => Ok(NoIndicatorColumnToPlot)
            case Some(indicatorColumn) =>
              if !Groupable(valid, dateColumn, indicatorColumn, parse) then Ok(NothingAfterGrouping)
              else
                var i :| 0 <= i < |valid| && ToDatetime(Get(valid[i], dateColumn), parse).Date?
                                          && Get(valid[i], indicatorColumn) != Null;
                assert valid[i] in valid;
                Ok(Plotted(dateColumn, indicatorColumn))
  }

  // ---------------------------------------------------------------------
  // add_records

  /** A record handed to add_records: a dict, its keys in insertion order. */
  type Record = seq<(string, Cell)>

  predicate HasKey(rec: Record, key: string) {
    rec != [] && (rec[0].0 == key || HasKey(rec[1..], key))
  }

  /** rec.get(key): the value under `key`, missing when the record lacks it. */
  function Lookup(rec: Record, key: string): (c: Cell)
    ensures !HasKey(rec, key) ==> c == Null
  {
    if rec == [] then Null else if rec[0].0 == key then rec[0].1 else Lookup(rec[1..], key)
  }

  /** A key the record holds reads as the value paired with its first occurrence. */
  lemma {:induction false} LookupFound(rec: Record, key: string)
    requires HasKey(rec, key)
    ensures (key, Lookup(rec, key)) in rec
    ensures exists i :: 0 <= i < |rec| && rec[i] == (key, Lookup(rec, key))
                        && forall j :: 0 <= j < i ==> rec[j].0 != key
  {
    if rec[0].0 != key {
      LookupFound(rec[1..], key);
      var i :| 0 <= i < |rec[1..]| && rec[1..][i] == (key, Lookup(rec[1..], key))
                && forall j :: 0 <= j < i ==> rec[1..][j].0 != key;
      assert rec[i + 1] == rec[1..][i];
      assert forall j :: 1 <= j < i + 1 ==> rec[j] == rec[1..][j - 1];
    } else {
      assert rec[0] == (key, Lookup(rec, key));
    }
  }

  /** `acc` followed by the keys of `rec` it does not hold yet. */
  function MergeKeys(acc: seq<string>, rec: Record): (r: seq<string>)
    ensures forall c :: c in r <==> c in acc || HasKey(rec, c)
    decreases |rec|
  {
    if rec == [] then acc
    else MergeKeys(if rec[0].0 in acc then acc else acc + [rec[0].0], rec[1..])
  }

  /** The columns of pd.DataFrame(records): every key of every record, in
      order of first appearance. */
  function RecordColumns(recs: seq<Record>, acc: seq<string>): (r: seq<string>)
    ensures forall c :: c in acc ==> c in r
    ensures forall k, c :: 0 <= k < |recs| && HasKey(recs[k], c) ==> c in r
    ensures forall c :: c in r ==> c in acc || exists k :: 0 <= k < |recs| && HasKey(recs[k], c)
  {
    if recs == [] then acc
    else
      var r := RecordColumns(recs[1..], MergeKeys(acc, recs[0]));
      assert forall k :: 1 <= k < |recs| ==> recs[k] == recs[1..][k - 1];
      assert forall c :: c in r ==> c in acc || exists k :: 0 <= k < |recs| && HasKey(recs[k], c) by {
        forall c | c in r && c !in acc
          ensures exists k :: 0 <= k < |recs| && HasKey(recs[k], c)
        {
          if !HasKey(recs[0], c) {
            var k :| 0 <= k < |recs[1..]| && HasKey(recs[1..][k], c);
            assert recs[k + 1] == recs[1..][k];
          }
        }
      }
      r
  }

  /** pd.DataFrame(records): a record's missing keys hold NaN. */
  function FromRecords(recs: seq<Record>): (t: Table)
    ensures |t.rows| == |recs|
    ensures forall k, c :: 0 <= k < |recs| && HasKey(recs[k], c) ==> c in t.columns
    ensures forall c :: c in t.columns ==> exists k :: 0 <= k < |recs| && HasKey(recs[k], c)
    ensures forall k, c :: 0 <= k < |recs| && c in t.columns ==>
                             c in t.rows[k] && t.rows[k][c] == Lookup(recs[k], c)
  {
    var columns := RecordColumns(recs, []);
    Table(columns, seq(|recs|, k requires 0 <= k < |recs| => map c | c in columns :: Lookup(recs[k], c)))
  }

  /** new_df[column] = pd.NA */
  function WithNullColumn(t: Table, column: string): (r: Table)
    ensures r.columns == t.columns + [column]
    ensures |r.rows| == |t.rows|
    ensures forall k :: 0 <= k < |t.rows| ==> r.rows[k] == t.rows[k][column := Null]
  {
    Table(t.columns + [column], seq(|t.rows|, k requires 0 <= k < |t.rows| => t.rows[k][column := Null]))
  }

  /** The row a record becomes in the table: the table's columns exactly,
      a column the record lacks holds a missing value, and keys the table
      does not have are dropped. */
  function Align(rec: Record, columns: seq<string>): (row: Row)
    ensures row.Keys == ColumnSet(columns)
    ensures forall c :: c in columns && !HasKey(rec, c) ==> row[c] == Null
    ensures forall c :: c in columns && HasKey(rec, c) ==> row[c] == Lookup(rec, c)
  {
    map c | c in columns :: Lookup(rec, c)
  }

  /** `frame` is pd.DataFrame(recs) with possibly some all-missing columns
      added: one row per record, every key a column, and every cell the
      record's value or missing. */
  ghost predicate FrameOf(frame: Table, recs: seq<Record>) {
    && |frame.rows| == |recs|
    && (forall i, c :: 0 <= i < |recs| && HasKey(recs[i], c) ==> c in frame.columns)
    && (forall i, c :: 0 <= i < |recs| && c in frame.columns ==>
          c in frame.rows[i] && frame.rows[i][c] == Lookup(recs[i], c))
  }

  lemma FromRecordsFrame(recs: seq<Record>)
    ensures FrameOf(FromRecords(recs), recs)
  {
  }

  /** Adding a column no record holds, all missing, keeps the frame faithful. */
  lemma WithNullColumnFrame(frame: Table, recs: seq<Record>, column: string)
    requires FrameOf(frame, recs) && column !in frame.columns
    ensures FrameOf(WithNullColumn(frame, column), recs)
    ensures WithNullColumn(frame, column).columns == frame.columns + [column]
  {
    var r := WithNullColumn(frame, column);
    forall i | 0 <= i < |recs|
      ensures Lookup(recs[i], column) == Null
    {
      assert !HasKey(recs[i], column);
    }
    assert forall c :: c in r.columns <==> c in frame.columns || c == column;
  }

  /** Once every column is in the frame built from the records, selecting
      those columns gives each record aligned to them. */
  lemma ProjectAligns(frame: Table, recs: seq<Record>, columns: seq<string>)
    requires FrameOf(frame, recs)
    requires forall c :: c in columns ==> c in frame.columns
    ensures var added := ProjectRows(frame.rows, columns);
            |added| == |recs| && forall k :: 0 <= k < |recs| ==> added[k] == Align(recs[k], columns)
    ensures var added := ProjectRows(frame.rows, columns);
            forall k :: 0 <= k < |added| ==> added[k].Keys == ColumnSet(columns)
  {
  }

  /** pd.DataFrame(recs), then every column of the main table the records
      lack is added with missing values. */
  method FillColumns(recs: seq<Record>, columns: seq<string>) returns (frame: Table)
    ensures FrameOf(frame, recs)
    ensures forall c :: c in columns ==> c in frame.columns
  {
    frame := FromRecords(recs);
    FromRecordsFrame(recs);
    for k := 0 to |columns|
      invariant FrameOf(frame, recs)
      invariant forall c :: c in columns[..k] ==> c in frame.columns
    {
      var column := columns[k];
      if column !in frame.columns {
        WithNullColumnFrame(frame, recs, column);
        frame := WithNullColumn(frame, column);
      }
      assert columns[..k + 1] == columns[..k] + [column];
    }
    assert columns[..|columns|] == columns;
  }

  /** Appending rows that hold exactly the table's columns keeps the table
      well formed and leaves the old rows first and unchanged. */
  lemma AppendKeepsWellFormed(t: Table, added: seq<Row>)
    requires WellFormed(t)
    requires forall k :: 0 <= k < |added| ==> added[k].Keys == ColumnSet(t.columns)
    ensures WellFormed(Table(t.columns, t.rows + added))
    ensures (t.rows + added)[..|t.rows|] == t.rows
    ensures forall k :: 0 <= k < |added| ==> (t.rows + added)[|t.rows| + k] == added[k]
  {
  }

  // ---------------------------------------------------------------------
  // the facade object

  class EthiopiaFIData {
    /** The main table. */
    var df: Table
    /** The reference codes: loaded and kept, never interpreted. */
    var refCodes: Table

    ghost predicate Valid()
      reads this
    {
      WellFormed(df)
    }

    /** __init__ after both files are read: every date column present is
        coerced with pd.to_datetime(errors='coerce'); `parse` stands for the
        parser. */
    constructor (main: Table, refCodes: Table, parse: Cell -> Option<int>)
      requires WellFormed(main)
      ensures Valid()
      ensures this.refCodes == refCodes
      ensures df.columns == main.columns && |df.rows| == |main.rows|
      ensures forall i, c :: 0 <= i < |main.rows| && c in main.columns ==>
                df.rows[i][c] == if c in DateColumnNames then ToDatetime(main.rows[i][c], parse)
                                 else main.rows[i][c]
      ensures forall i, c :: 0 <= i < |main.rows| && c in main.columns && c in DateColumnNames ==>
                df.rows[i][c].Null? || df.rows[i][c].Date?
    {
      var t := main;
      var names := DateColumnNames;
      for k := 0 to |names|
        invariant t.columns == main.columns && |t.rows| == |main.rows|
        invariant WellFormed(t)
        invariant forall i, c :: 0 <= i < |main.rows| && c in main.columns ==>
                    t.rows[i][c] == if c in names[..k] then ToDatetime(main.rows[i][c], parse)
                                    else main.rows[i][c]
      {
        var column := names[k];
        if column in t.columns {
          t := Table(t.columns, seq(|t.rows|, i requires 0 <= i < |t.rows| =>
                                      t.rows[i][column := ToDatetime(Get(t.rows[i], column), parse)]));
        }
        assert names[..k + 1] == names[..k] + [column];
      }
      df := t;
      this.refCodes := refCodes;
    }

    /** _get_date_column, the loop as written. */
    method GetDateColumn() returns (column: Option<string>)
      ensures column == DateColumn(df)
    {
      var names := DateColumnNames;
      for k := 0 to |names|
        invariant forall j :: 0 <= j < k ==> names[j] !in df.columns
      {
        if names[k] in df.columns {
          return Some(names[k]);
        }
      }
      return None;
    }

    /** add_records: nothing happens for an empty list; otherwise the
        records are appended after the existing rows, in order, aligned to
        the existing columns. */
    method AddRecords(newRecords: seq<Record>)
      requires Valid()
      modifies this
      ensures Valid()
      ensures refCodes == old(refCodes)
      ensures df.columns == old(df.columns)
      ensures |df.rows| == |old(df.rows)| + |newRecords|
      ensures df.rows[..|old(df.rows)|] == old(df.rows)
      ensures forall k :: 0 <= k < |newRecords| ==>
                df.rows[|old(df.rows)| + k] == Align(newRecords[k], df.columns)
      ensures newRecords == [] ==> df == old(df)
    {
      if newRecords == [] {
        return;
      }
      var columns := df.columns;
      var frame := FillColumns(newRecords, columns);
      var added := ProjectRows(frame.rows, columns);
      ProjectAligns(frame, newRecords, columns);
      AppendKeepsWellFormed(df, added);
      df := Table(columns, df.rows + added);
    }
  }

  /** add_records([{record_type: "event"}]) on a table with columns
      record_type and pillar adds one row whose pillar is missing. */
  method AddRecordsExample()
  {
    var main := Table(["record_type", "pillar"],
                      [map["record_type" := Text("observation"), "pillar" := Text("A")]]);
    var data := new EthiopiaFIData(main, EmptyTable, (c: Cell) => None);
    var record := [("record_type", Text("event"))];
    assert "pillar" != "record_type" by {
      assert "pillar"[0] != "record_type"[0];
    }
    assert HasKey(record, "record_type") && !HasKey(record, "pillar");
    data.AddRecords([record]);
    assert |data.df.rows| == 2;
    assert [record][0] == record;
    assert data.df.rows[1] == Align(record, ["record_type", "pillar"]);
    assert data.df.rows[1]["record_type"] == Text("event");
    assert data.df.rows[1]["pillar"] == Null;
    data.AddRecords([]);
    assert |data.df.rows| == 2;
  }
}
