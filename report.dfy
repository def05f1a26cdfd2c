/**
 * The report builder of the report generator: merges the two
 * implementations' groups into one table, one row per operation in
 * ascending order, each metric cell naming the implementations' means as
 * "SM: v" and "ST: v" on separate lines.
 */
module Report {
  import opened Wrappers
  import opened Text
  import opened Extractor
  import opened Aggregator

  /** The header row, in column order. */
  const Header: seq<string> :=
    ["Operation", "Elapsed Time (s)", "Heap Used Avg", "Heap Used StdDev", "Margin of Error", "Relative Margin of Error"]

  /** The header of the column that holds a metric. */
  function ColumnName(m: Field): string
    requires IsMetric(m)
  {
    match m
    case ElapsedTime => "Elapsed Time (s)"
    case HeapUsedAvg => "Heap Used Avg"
    case HeapUsedStdDev => "Heap Used StdDev"
    case MarginOfError => "Margin of Error"
    case RelativeMarginOfError => "Relative Margin of Error"
  }

  /** The metric columns follow the operation column, in the order of the
      metric list. */
  lemma HeaderNamesMetrics()
    ensures |Header| == |Metrics| + 1 && Header[0] == "Operation"
    ensures forall k :: 0 <= k < |Metrics| ==> IsMetric(Metrics[k]) && Header[k + 1] == ColumnName(Metrics[k])
  {
  }

  /** The value one implementation shows in a metric cell: none without a
      summary or when the summary lacks the metric. */
  function SideValue(agg: Option<Summary>, m: Field): Option<real>
    requires IsMetric(m)
  {
    if agg.Some? then agg.value.Metric(m) else None
  }

  /** `sep.join(parts)`. */
  function Join(parts: seq<string>, sep: string): string {
    if parts == [] then ""
    else if |parts| == 1 then parts[0]
    else parts[0] + sep + Join(parts[1..], sep)
  }

  /** The line an implementation contributes to a cell: its prefix
      (`"SM: "` or `"ST: "`) and the value rendered by `render` (Python's
      `str` on a float). */
  function Labelled(prefix: string, v: Option<real>, render: real -> string): seq<string> {
    if v.Some? then [prefix + render(v.value)] else []
  }

  /** The text of one metric cell. */
  function FormatCell(sm: Option<real>, st: Option<real>, render: real -> string): (cell: string)
    ensures cell == "" <==> sm.None? && st.None?
    ensures sm.Some? && st.None? ==> cell == "SM: " + render(sm.value)
    ensures sm.None? && st.Some? ==> cell == "ST: " + render(st.value)
    ensures sm.Some? && st.Some? ==> cell == "SM: " + render(sm.value) + "\n" + "ST: " + render(st.value)
  {
    var parts := Labelled("SM: ", sm, render) + Labelled("ST: ", st, render);
    assert |parts| == 2 ==> Join(parts, "\n") == parts[0] + "\n" + Join([parts[1]], "\n") by {
      if |parts| == 2 {
        assert parts[1..] == [parts[1]];
      }
    }
    Join(parts, "\n")
  }

  /** The metric cells of a row, from the two implementations' aggregates
      (`None` for an implementation without records). */
  function Cells(smAgg: Option<Summary>, stAgg: Option<Summary>, render: real -> string): (cells: seq<string>)
    ensures |cells| == |Metrics|
  {
    seq(|Metrics|, k requires 0 <= k < |Metrics| =>
      FormatCell(SideValue(smAgg, Metrics[k]), SideValue(stAgg, Metrics[k]), render))
  }

  /** The row of one operation: its name, then one cell per metric pairing
      the means of the two implementations' records for it. */
  function RowFor(sm: Groups, st: Groups, operation: string, render: real -> string): (row: seq<string>)
    ensures |row| == |Header| && row[0] == operation
  {
    [operation] + Cells(Aggregate(Records(sm, operation)), Aggregate(Records(st, operation)), render)
  }

  /** What the generator writes: nothing when neither implementation has an
      operation, otherwise the header and the rows. */
  datatype Report = NoData | Table(header: seq<string>, rows: seq<seq<string>>)

  /** The loop of `generate_csv` that builds the cells of one row, cell by
      cell, collecting the lines of each cell before joining them. */
  method BuildCells(smAgg: Option<Summary>, stAgg: Option<Summary>, render: real -> string) returns (cells: seq<string>)
    ensures cells == Cells(smAgg, stAgg, render)
  {
    cells := [];
    var i := 0;
    while i < |Metrics|
      invariant 0 <= i <= |Metrics| && |cells| == i
      invariant forall k :: 0 <= k < i ==>
        cells[k] == FormatCell(SideValue(smAgg, Metrics[k]), SideValue(stAgg, Metrics[k]), render)
    {
      var metric := Metrics[i];
      var cellContent: seq<string> := [];
      if smAgg.Some? && smAgg.value.Metric(metric).Some? {
        cellContent := cellContent + ["SM: " + render(smAgg.value.Metric(metric).value)];
      }
      if stAgg.Some? && stAgg.value.Metric(metric).Some? {
        cellContent := cellContent + ["ST: " + render(stAgg.value.Metric(metric).value)];
      }
      assert cellContent == Labelled("SM: ", SideValue(smAgg, metric), render) + Labelled("ST: ", SideValue(stAgg, metric), render);
      cells := cells + [if cellContent != [] then Join(cellContent, "\n") else ""];
      i := i + 1;
    }
  }

  /** One operation's row: the aggregates of its records, then its cells. */
  method BuildRow(sm: Groups, st: Groups, operation: string, render: real -> string) returns (row: seq<string>)
    ensures row == RowFor(sm, st, operation, render)
  {
    var smAgg := Aggregate(Records(sm, operation));
    var stAgg := Aggregate(Records(st, operation));
    var cells := BuildCells(smAgg, stAgg, render);
    row := [operation] + cells;
  }

  /** Python's `sorted` on a set of strings: its elements, each once, in
      ascending code-point order. */
  method SortedOperations(operations: set<string>) returns (ops: seq<string>)
    ensures |ops| == |operations|
    ensures forall o :: o in operations <==> o in ops
    ensures forall j, k :: 0 <= j < k < |ops| ==> Below(ops[j], ops[k])
  {
    ops := [];
    var remaining := operations;
    while remaining != {}
      invariant remaining <= operations
      invariant |ops| + |remaining| == |operations|
      invariant forall k :: 0 <= k < |ops| ==> ops[k] in operations && ops[k] !in remaining
      invariant forall o :: o in operations && o !in remaining ==> o in ops
      invariant forall j, k :: 0 <= j < k < |ops| ==> Below(ops[j], ops[k])
      invariant forall k, o :: 0 <= k < |ops| && o in remaining ==> Below(ops[k], o)
      decreases |remaining|
    {
      LeastExists(remaining);
      var least :| least in remaining && forall o :: o in remaining && o != least ==> Below(least, o);
      ops := ops + [least];
      remaining := remaining - {least};
    }
  }

  /** The table built from the operations in ascending order has one row
      per operation, each the row of its first cell, in ascending order of
      first cells. */
  lemma SortedRows(sm: Groups, st: Groups, operations: set<string>, ops: seq<string>, rows: seq<seq<string>>, render: real -> string)
    requires |ops| == |operations|
    requires forall o :: o in operations <==> o in ops
    requires forall j, k :: 0 <= j < k < |ops| ==> Below(ops[j], ops[k])
    requires |rows| == |ops| && forall k :: 0 <= k < |ops| ==> rows[k] == RowFor(sm, st, ops[k], render)
    ensures |rows| == |operations|
    ensures forall k :: 0 <= k < |rows| ==> |rows[k]| == |Header| && rows[k] == RowFor(sm, st, rows[k][0], render)
    ensures forall operation :: operation in operations <==>
              exists k :: 0 <= k < |rows| && |rows[k]| > 0 && rows[k][0] == operation
    ensures forall j, k :: 0 <= j < k < |rows| ==> |rows[j]| > 0 && |rows[k]| > 0 && Below(rows[j][0], rows[k][0])
  {
    assert forall k :: 0 <= k < |rows| ==> rows[k][0] == ops[k];
    forall operation | operation in operations
      ensures exists k :: 0 <= k < |rows| && |rows[k]| > 0 && rows[k][0] == operation
    {
      var k :| 0 <= k < |ops| && ops[k] == operation;
      assert rows[k][0] == operation;
    }
  }

  /** The merge and format part of `generate_csv`: the operations of both
      groupings, in ascending order, each with its row. */
  method GenerateCsv(sm: Groups, st: Groups, render: real -> string) returns (report: Report)
    ensures report.NoData? <==> sm.Keys + st.Keys == {}
    ensures report.Table? ==> report.header == Header && |report.rows| == |sm.Keys + st.Keys|
    ensures report.Table? ==> forall k :: 0 <= k < |report.rows| ==>
              |report.rows[k]| == |Header| && report.rows[k] == RowFor(sm, st, report.rows[k][0], render)
    ensures report.Table? ==> forall operation :: operation in sm.Keys + st.Keys <==>
              exists k :: 0 <= k < |report.rows| && |report.rows[k]| > 0 && report.rows[k][0] == operation
    ensures report.Table? ==> forall j, k :: 0 <= j < k < |report.rows| ==>
              |report.rows[j]| > 0 && |report.rows[k]| > 0 && Below(report.rows[j][0], report.rows[k][0])
  {
    var allOperations := sm.Keys + st.Keys;
    if allOperations == {} {
      return NoData;
    }
    var ops := SortedOperations(allOperations);
    var rows := BuildRows(sm, st, ops, render);
    SortedRows(sm, st, allOperations, ops, rows, render);
    report := Table(Header, rows);
  }

  /** The loop of `generate_csv` over the sorted operations, one row each. */
  method BuildRows(sm: Groups, st: Groups, ops: seq<string>, render: real -> string) returns (rows: seq<seq<string>>)
    ensures |rows| == |ops| && forall k :: 0 <= k < |ops| ==> rows[k] == RowFor(sm, st, ops[k], render)
  {
    rows := [];
    for i := 0 to |ops|
      invariant |rows| == i
      invariant forall k :: 0 <= k < i ==> rows[k] == RowFor(sm, st, ops[k], render)
    {
      var row := BuildRow(sm, st, ops[i], render);
      rows := rows + [row];
    }
  }

  /** The cells of a row, one by one. */
  lemma RowForCells(sm: Groups, st: Groups, operation: string, render: real -> string)
    ensures forall k :: 0 <= k < |Metrics| ==>
      (RowFor(sm, st, operation, render)[k + 1] ==
       FormatCell(SideValue(Aggregate(Records(sm, operation)), Metrics[k]), SideValue(Aggregate(Records(st, operation)), Metrics[k]), render))
  {
  }

  /** An operation only one implementation ran shows only that
      implementation's values: every metric cell of its row is the SM line
      alone, or empty. */
  lemma OneSidedRow(sm: Groups, st: Groups, operation: string, render: real -> string)
    requires operation !in st
    ensures forall k :: 0 <= k < |Metrics| ==>
      RowFor(sm, st, operation, render)[k + 1] == FormatCell(SideValue(Aggregate(Records(sm, operation)), Metrics[k]), None, render)
  {
    RowForCells(sm, st, operation, render);
    assert Aggregate(Records(st, operation)) == None;
  }

  /** A heap record of `"run.json"` holding only the heap average. */
  function HeapRecord(heap: real): MetricRecord {
    MetricRecord(None, Some(heap), None, None, None, None, "run.json")
  }

  /** SM runs of "Insert row" averaging 1000 and 3000 bytes of heap and one
      ST run averaging 500 give the heap cell of the means, SM first. */
  lemma HeapCellExample(render: real -> string)
    ensures RowFor(map["Insert row" := [HeapRecord(1000.0), HeapRecord(3000.0)]],
                   map["Insert row" := [HeapRecord(500.0)]], "Insert row", render)[2]
            == "SM: " + render(2000.0) + "\n" + "ST: " + render(500.0)
  {
    var sm := map["Insert row" := [HeapRecord(1000.0), HeapRecord(3000.0)]];
    var st := map["Insert row" := [HeapRecord(500.0)]];
    RowForCells(sm, st, "Insert row", render);
    HeapMeans();
    assert Metrics[1] == HeapUsedAvg;
  }

  lemma HeapMeans()
    ensures SideValue(Aggregate([HeapRecord(1000.0), HeapRecord(3000.0)]), HeapUsedAvg) == Some(2000.0)
    ensures SideValue(Aggregate([HeapRecord(500.0)]), HeapUsedAvg) == Some(500.0)
  {
    PairMean();
    SingleMean();
  }

  lemma PairMean()
    ensures Mean([HeapRecord(1000.0), HeapRecord(3000.0)], HeapUsedAvg) == Some(2000.0)
  {
    var rs := [HeapRecord(1000.0), HeapRecord(3000.0)];
    PresentPair(rs, HeapUsedAvg);
    assert Own(rs[0], HeapUsedAvg) == [1000.0] && Own(rs[1], HeapUsedAvg) == [3000.0];
    var values := [1000.0, 3000.0];
    assert Present(rs, HeapUsedAvg) == values;
    assert values[1..][1..] == [];
    assert Sum(values) == 4000.0;
  }

  lemma SingleMean()
    ensures Mean([HeapRecord(500.0)], HeapUsedAvg) == Some(500.0)
  {
    var rs := [HeapRecord(500.0)];
    assert rs[1..] == [];
    assert Present(rs, HeapUsedAvg) == [500.0];
  }
}
