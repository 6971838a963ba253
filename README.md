# Ethiopia financial-inclusion data facade, modelled in Dafny

`EthiopiaFIData` (src/data_loader.py) holds the unified financial-inclusion
table. That table's rows are observations, events and impact links. The class
offers read-only summaries of the table and one operation that appends rows.
This project models the logic behind those summaries:

- which columns the facade looks for;
- how it filters rows by `record_type`;
- how it counts, sorts and cuts its results;
- how it coerces date columns when it is built;
- how it aligns new records to the existing columns.

Modules:

- `Tables` (tables.dfy) holds the table value:
  - cells: `Null` stands for every pandas missing marker, and there are text, integer and parsed-date cells;
  - rows: maps from column name to cell;
  - a table: an ordered column list plus its rows.

  It also holds the row operations pandas performs: the boolean mask on
  `record_type`, the column comprehension, the selection `df[cols]` and `head(20)`.
- `Counting` (counting.dfy) models `Series.value_counts(dropna=…)` and
  `to_dict()`. A tally is sorted by descending count, and its contract
  relates each count to the number of rows that hold the value.
- `DateOrder` (date_order.dfy) models two things:
  - `sort_values` on a date column, ascending with missing dates last;
  - `min()`/`max()` over a date column, which skip missing values.
- `DataLoader` (data_loader.dfy) holds the operations of the facade:
  - the read-only summaries are functions of the table value;
  - the class `EthiopiaFIData` has a `df` field and a `refCodes` field;
  - its constructor coerces the date columns;
  - `GetDateColumn` is the lookup loop;
  - `AddRecords` modifies `df`.

Where pandas raises `KeyError` on `df['record_type']` or `df['pillar']`, the
model returns `KeyError(column)` instead of requiring the column. The
docstrings of `get_events_summary` and `get_impact_links_summary` speak of
"safe column selection", yet their `df['record_type']` raises `KeyError`
when that column is absent; the model follows the code.

## Model

| member | source | states |
|---|---|---|
| DataLoader.DateColumn | src/data_loader.py:204-208 | the result is observation_date when present, else event_date when present, else date when present, else None; each outcome holds exactly when its column condition holds |
| DataLoader.IndicatorColumn | src/data_loader.py:92 | indicator_code when present, else indicator when present, else None; each outcome holds exactly when its column condition holds |
| DataLoader.EthiopiaFIData.GetDateColumn | src/data_loader.py:204-208 | the loop as written returns exactly `DateColumn(df)` |
| Tables.FirstPresent | src/data_loader.py:205-208 | None exactly when no candidate is a column; otherwise the first candidate that is a column |
| DataLoader.GetRecordCounts | src/data_loader.py:62-70 | KeyError on record_type before pillar; `by_record_type` holds exactly the non-null values that occur, each with its number of occurrences; `by_pillar` holds every value that occurs, null included, with its count; `by_source_type` and `by_confidence` are empty when their column is absent, and otherwise hold every value that occurs, null included, with its count |
| DataLoader.CountsDict | src/data_loader.py:65-66 | `value_counts(dropna).to_dict()`: the keys are exactly the counted values that occur (null only when kept), each mapped to its number of occurrences |
| DataLoader.OptionalCountsDict | src/data_loader.py:67-68 | empty for an absent column; otherwise every value that occurs, null included, mapped to its number of occurrences |
| DataLoader.RecordCountsTotals | src/data_loader.py:64-69 | `by_pillar` sums to the row count; `by_record_type` sums to the row count minus the rows whose record_type is missing; `by_source_type` and `by_confidence` sum to the row count when present |
| DataLoader.RecordCountsExample | src/data_loader.py:62-70 | rows (k1, p1), (k1, p2), (k2, p1) give `{k1: 2, k2: 1}`, `{p1: 2, p2: 1}` and two empty dicts |
| DataLoader.TwoValueCounts | src/data_loader.py:65-66 | a column where x occurs twice, y once and nothing else occurs counts to exactly `{x: 2, y: 1}` |
| Counting.ValueCounts | src/data_loader.py:65-68 | distinct values, non-increasing counts, each count equal to the number of rows holding the value, exactly the counted values that occur, missing values dropped iff dropna, total equal to the rows counted |
| Counting.Tally | src/data_loader.py:65-68 | one entry per counted value that occurs, with its occurrence count and positive counts |
| Counting.SortByCount | src/data_loader.py:65-68 | the result is a permutation of the tally in non-increasing count order |
| Counting.ToDict | src/data_loader.py:65-68 | the dict's keys are exactly the listed values, each mapped to its count |
| Counting.ToDictTotal | src/data_loader.py:65-68 | the dict's counts sum to the total of the entries |
| Counting.OccurrencesAt | src/data_loader.py:65-68 | a value some row holds is counted at least once |
| DataLoader.GetTemporalRange | src/data_loader.py:72-88 | the error result iff no date column exists; KeyError iff a date column exists but record_type does not; with both present, a temporal range is returned, whose overall bounds are the earliest and latest dates, and each of whose observation and event extents is absent (None) iff the table has no row of that type, else holds that type's earliest and latest dates |
| DateOrder.MinDate | src/data_loader.py:82-87 | the earliest date in the column, and NaT only when no row holds a date |
| DateOrder.MaxDate | src/data_loader.py:82-87 | the latest date in the column, and NaT only when no row holds a date |
| DataLoader.ExtentOf | src/data_loader.py:84-87 | no extent for no rows (pandas gives None), else the earliest and latest dates of those rows |
| Tables.RowsOfKind | src/data_loader.py:78-79 | the rows whose record_type equals the kind, and only those |
| Tables.RowsOfKindAppend | src/data_loader.py:103 | the filter commutes with concatenation, so it keeps the rows' relative order |
| DataLoader.ListUniqueIndicators | src/data_loader.py:90-99 | the empty table iff neither indicator_code nor indicator is a column; otherwise the columns are the chosen indicator column and `count` |
| DataLoader.ListUniqueIndicatorsCounts | src/data_loader.py:97-99 | each row holds a distinct non-null indicator value and its number of occurrences, in non-increasing count order |
| DataLoader.ListUniqueIndicatorsCover | src/data_loader.py:97-99 | every non-null indicator value in the table appears in the result |
| DataLoader.GetEventsSummary | src/data_loader.py:101-121 | KeyError iff record_type is absent, and a table otherwise; that table is the empty one iff there are no event rows |
| DataLoader.OrderedEvents | src/data_loader.py:103-110 | without a date column, exactly the event rows in table order; with one, a permutation of the event rows in date order, missing dates last |
| DataLoader.EventsSummaryShape | src/data_loader.py:112-121 | min(events, 20) rows; the columns are the candidates present, or all columns when none is present; every column is a table column |
| DataLoader.EventsSummaryRows | src/data_loader.py:103-121 | as a multiset, the rows are contained in the event rows projected onto the chosen columns (in the event rows themselves when all columns are kept) |
| DataLoader.EventsSummarySorted | src/data_loader.py:108-121 | with a date column, that column is among the summary's columns and the rows are in date order, missing dates last |
| DataLoader.EventsSummaryEarliest | src/data_loader.py:108-121 | with a date column, the summary rows are the first 20 of a date-sorted arrangement of all event rows (projected onto the chosen columns when any is present), so no dropped event is dated before a kept one |
| DataLoader.EventsSummaryInTableOrder | src/data_loader.py:108-121 | without a date column, the summary rows are the first 20 event rows in table order, projected onto the chosen columns when any is present |
| DataLoader.EventDateFallbackNeverMatches | src/data_loader.py:108-115 | event_date is among the chosen columns only when it is the detected date column, so the fallback label never matches |
| DateOrder.SortByDate | src/data_loader.py:110 | a permutation of the rows, ordered by date with missing dates last |
| DateOrder.InsertByDate | src/data_loader.py:110 | inserting into date-ordered rows adds exactly that row and keeps the order |
| DateOrder.OrderedSorted | src/data_loader.py:110 | adjacent date order implies order between every pair |
| Tables.Present | src/data_loader.py:115 | exactly the candidates that are columns; no duplicates if the candidates have none |
| Tables.PresentAppend | src/data_loader.py:132 | the comprehension keeps the candidates' order |
| Tables.ProjectRows | src/data_loader.py:121 | each row is restricted to the selected columns, and a missing column reads as null |
| Tables.ProjectRowsPermutation | src/data_loader.py:110-121 | projecting a rearrangement of rows gives a rearrangement of the projected rows |
| Tables.Head | src/data_loader.py:119-121 | the first min(n, 20) rows, a sub-multiset of the input |
| DataLoader.GetImpactLinksSummary | src/data_loader.py:123-137 | KeyError iff record_type is absent, and a table otherwise; that table is the empty one iff there are no impact_link rows |
| DataLoader.ImpactLinksSummaryShape | src/data_loader.py:125-137 | min(links, 20) rows in original order, each the i-th impact_link row projected onto the present candidates, or kept whole with all columns when no candidate is present; every column is a table column |
| DataLoader.ToDatetime | src/data_loader.py:56 | the result is a date or missing; a date is unchanged; a missing value stays missing |
| DataLoader.RowsWithValue | src/data_loader.py:152 | exactly the rows whose date is not missing |
| DataLoader.Groupable | src/data_loader.py:163-167 | the grouping is non-empty exactly when some row has a date that re-coerces to a valid date and a present indicator |
| DataLoader.PlotTemporalCoverage | src/data_loader.py:139-169 | the guard chain in source order, each outcome exactly when its guard is the first to fail: no date column; KeyError on record_type; no observation rows; observations but none with a date; an observation with a date but no indicator column; an indicator column but no observation with both a parsable date and an indicator; otherwise it plots with the detected date and indicator columns and some observation survives grouping; the only KeyError is on record_type |
| DataLoader.EthiopiaFIData.constructor | src/data_loader.py:52-56 | columns and row count unchanged; every present date column coerced cell by cell; date columns afterwards hold only dates or missing values; other cells unchanged |
| DataLoader.Lookup | src/data_loader.py:186 | a key the record lacks reads as missing |
| DataLoader.LookupFound | src/data_loader.py:186 | a key the record holds reads as the value paired with its first occurrence in the record |
| DataLoader.MergeKeys | src/data_loader.py:186 | the merged column list holds exactly the earlier columns and the record's keys |
| DataLoader.RecordColumns | src/data_loader.py:186 | the columns are exactly the starting columns plus every key of every record |
| DataLoader.FromRecords | src/data_loader.py:186 | one row per record; the columns are exactly the keys of the records; each cell holds the record's value or missing |
| DataLoader.WithNullColumn | src/data_loader.py:189-190 | appends one column, missing in every row, and changes nothing else |
| DataLoader.Align | src/data_loader.py:188-193 | the row has exactly the table's columns; a column the record lacks is missing; a key outside the columns is dropped |
| DataLoader.FillColumns | src/data_loader.py:186-190 | the frame built from the records, after the alignment loop, holds every column of the main table, has one row per record, and each cell is that record's value or missing |
| DataLoader.EthiopiaFIData.AddRecords | src/data_loader.py:180-195 | an empty list leaves `df` unchanged; otherwise the columns are unchanged, the row count grows by the number of records, the old rows are unchanged and first, and row k of the new rows is record k aligned to the columns; the table stays well formed |

## Left out

- File loading in `__init__`: the existence checks, and the choice between Excel and CSV readers by suffix. This is filesystem I/O. The constructor takes the loaded tables instead.
- `save_enriched`: filesystem I/O.
- The date parser behind `pd.to_datetime(errors='coerce')` is a library call. It becomes the parameter `parse` of the constructor and of `PlotTemporalCoverage`. Parsed dates are opaque ordinals.
- DataLoader.ToDatetime: `parse` works cell by cell. pandas 2.x infers one format for a whole column and turns cells that do not match it into NaT; a per-cell parser cannot express that dependence on the other cells of the column.
- `plot_temporal_coverage` beyond its guard chain. The `pd.Grouper` bucketing by frequency is not modelled. Only "some observation with a valid date and an indicator survives" decides between `NothingAfterGrouping` and `Plotted`. Drawing the chart is not modelled.
- `ref_codes` is kept as a field and never interpreted, as in the source.
- The `print` diagnostics and `warnings.filterwarnings` have no behavioural content.
- Tie order of `value_counts` and `sort_values`: the default sort is not stable. The model fixes one order, and its contracts claim only sortedness and permutation.
- DateOrder.SortByDate: a non-date value in a date column counts as missing. Such a value can arrive only through `add_records`, and pandas would then raise `TypeError` in `sort_values`, `min` and `max`. The same applies to MinDate and MaxDate.
- Numbers are unbounded integers. Floating-point cells and dtype changes made by `pd.concat` are not modelled.
- DataLoader.Align: records are association lists whose keys are kept in order of first appearance. A record with a repeated key keeps its first value; a Python dict cannot repeat a key.
- When both observation_date and event_date exist, the events summary sorts by observation_date and shows that column. This is the source's behaviour and the model keeps it.
- DataLoader.EthiopiaFIData.constructor requires a well-formed table: distinct column names, and every row holding exactly those columns. A loaded `DataFrame` always has this shape.
