/**
 * The pairing loop and the colour lookup of `heap_usage_with_error_bars.py`:
 * each report row gives one bar per implementation whose heap average and
 * margin of error both parsed, the margin becoming the bar's error.
 */
module HeapChart {
  import opened Wrappers
  import opened CellParser
  import opened Flatten

  /** A report row read back: column name to cell. */
  type Row = map<string, Cell>

  const SharedMatrix: string := "SharedMatrix"
  const SharedTree: string := "SharedTree"

  /** One entry of `plot_data`. */
  datatype HeapPoint = HeapPoint(operation: Cell, heapUsage: real, error: real, kind: string)

  /** `row[column]`, which raises `KeyError` for a column the row lacks. */
  function Lookup(row: Row, column: string): (r: Result<Cell, ChartError>)
    ensures r.Success? <==> column in row
    ensures r.Success? ==> r.value == row[column]
    ensures r.Failure? ==> r.error == KeyError(column)
  {
    if column in row then Success(row[column]) else Failure(KeyError(column))
  }

  /** The bar of one implementation: only when both its values are present. */
  function Bar(operation: Cell, heap: Option<real>, margin: Option<real>, kind: string): (ps: seq<HeapPoint>)
    ensures |ps| <= 1
    ensures |ps| == 1 <==> heap.Some? && margin.Some?
    ensures |ps| == 1 ==> ps[0] == HeapPoint(operation, heap.value, margin.value, kind)
  {
    if heap.Some? && margin.Some? then [HeapPoint(operation, heap.value, margin.value, kind)] else []
  }

  /** The bars of one row, SM before ST; the lookups and the parses happen
      in the order the script does them, and the first to raise wins. */
  function RowBars(row: Row): Result<seq<HeapPoint>, ChartError> {
    var operation :- Lookup(row, "Operation");
    var heapCell :- Lookup(row, "Heap Used Avg");
    var heap :- ParseCell(heapCell);
    var marginCell :- Lookup(row, "Margin of Error");
    var margin :- ParseCell(marginCell);
    Success(SideBars(operation, heap, margin))
  }

  /** The SM bar, then the ST bar, of one row's parsed heap and margin. */
  function SideBars(operation: Cell, heap: (Option<real>, Option<real>), margin: (Option<real>, Option<real>)): seq<HeapPoint> {
    Bar(operation, heap.0, margin.0, SharedMatrix) + Bar(operation, heap.1, margin.1, SharedTree)
  }

  /** `plot_data` after the loop over `rows`, or the exception it raised. */
  function HeapData(rows: seq<Row>): Result<seq<HeapPoint>, ChartError> {
    Gather(rows, RowBars)
  }

  /** The body of the loop: the lookups, the parses and the two guarded
      appends for one row. */
  method AppendRowBars(plotData: seq<HeapPoint>, row: Row) returns (r: Result<seq<HeapPoint>, ChartError>)
    ensures r.Success? <==> RowBars(row).Success?
    ensures r.Success? ==> r.value == plotData + RowBars(row).value
    ensures r.Failure? ==> r.error == RowBars(row).error
  {
    if "Operation" !in row {
      return Failure(KeyError("Operation"));
    }
    var operation := row["Operation"];
    if "Heap Used Avg" !in row {
      return Failure(KeyError("Heap Used Avg"));
    }
    var heap := ParseCell(row["Heap Used Avg"]);
    if heap.Failure? {
      return Failure(heap.error);
    }
    if "Margin of Error" !in row {
      return Failure(KeyError("Margin of Error"));
    }
    var margin := ParseCell(row["Margin of Error"]);
    if margin.Failure? {
      return Failure(margin.error);
    }
    var smHeap, stHeap := heap.value.0, heap.value.1;
    var smMargin, stMargin := margin.value.0, margin.value.1;
    var extended := plotData;
    if smHeap.Some? && smMargin.Some? {
      extended := extended + [HeapPoint(operation, smHeap.value, smMargin.value, SharedMatrix)];
    }
    if stHeap.Some? && stMargin.Some? {
      extended := extended + [HeapPoint(operation, stHeap.value, stMargin.value, SharedTree)];
    }
    return Success(extended);
  }

  /** The loop of `create_heap_usage_with_error_bars` over the rows. */
  method CollectHeapData(rows: seq<Row>) returns (r: Result<seq<HeapPoint>, ChartError>)
    ensures r == HeapData(rows)
  {
    var plotData: seq<HeapPoint> := [];
    var i := 0;
    while i < |rows|
      invariant 0 <= i <= |rows|
      invariant HeapData(rows[..i]) == Success(plotData)
    {
      assert rows[..i + 1] == rows[..i] + [rows[i]];
      GatherSnoc(rows[..i], rows[i], RowBars);
      var next := AppendRowBars(plotData, rows[i]);
      if next.Failure? {
        GatherFailureSticks(rows, i + 1, RowBars);
        return Failure(next.error);
      }
      plotData := next.value;
      i := i + 1;
    }
    assert rows[..|rows|] == rows;
    return Success(plotData);
  }

  /** At most two bars, SM first; a side gets a bar exactly when both its
      heap average and its margin are present, and the bar pairs the two
      values of that side. */
  lemma SideBarsShape(operation: Cell, heap: (Option<real>, Option<real>), margin: (Option<real>, Option<real>))
    ensures var bars := SideBars(operation, heap, margin);
      && |bars| <= 2
      && ((exists k :: 0 <= k < |bars| && bars[k].kind == SharedMatrix) <==> heap.0.Some? && margin.0.Some?)
      && ((exists k :: 0 <= k < |bars| && bars[k].kind == SharedTree) <==> heap.1.Some? && margin.1.Some?)
      && (forall k :: 0 <= k < |bars| && bars[k].kind == SharedMatrix ==>
            bars[k] == HeapPoint(operation, heap.0.value, margin.0.value, SharedMatrix))
      && (forall k :: 0 <= k < |bars| && bars[k].kind == SharedTree ==>
            bars[k] == HeapPoint(operation, heap.1.value, margin.1.value, SharedTree))
      && (|bars| == 2 ==> bars[0].kind == SharedMatrix && bars[1].kind == SharedTree)
  {
    var bars := SideBars(operation, heap, margin);
    if heap.0.Some? && margin.0.Some? {
      assert bars[0].kind == SharedMatrix;
    }
    if heap.1.Some? && margin.1.Some? {
      assert bars[|bars| - 1].kind == SharedTree;
    }
  }

  /** A row that does not raise has the three columns, both its cells
      parse, and its bars are those of the parsed values. */
  lemma RowBarsParsed(row: Row)
    requires RowBars(row).Success?
    ensures "Operation" in row && "Heap Used Avg" in row && "Margin of Error" in row
    ensures ParseCell(row["Heap Used Avg"]).Success? && ParseCell(row["Margin of Error"]).Success?
    ensures RowBars(row).value ==
              SideBars(row["Operation"], ParseCell(row["Heap Used Avg"]).value, ParseCell(row["Margin of Error"]).value)
  {
  }

  /** Bars of later rows follow those of earlier rows. */
  lemma HeapDataAppend(rows: seq<Row>, more: seq<Row>)
    requires HeapData(rows).Success? && HeapData(more).Success?
    ensures HeapData(rows + more) == Success(HeapData(rows).value + HeapData(more).value)
  {
    GatherAppend(rows, more, RowBars);
  }

  /** At most two bars per row. */
  lemma {:induction false} HeapDataBound(rows: seq<Row>)
    requires HeapData(rows).Success?
    ensures |HeapData(rows).value| <= 2 * |rows|
  {
    if rows != [] {
      var init, row := rows[..|rows| - 1], rows[|rows| - 1];
      assert rows == init + [row];
      GatherSnoc(init, row, RowBars);
      HeapDataBound(init);
      RowBarsParsed(row);
      SideBarsShape(row["Operation"], ParseCell(row["Heap Used Avg"]).value, ParseCell(row["Margin of Error"]).value);
    }
  }

  /** The colour of a bar: `colors.get(op_type, '#888888')`. */
  function Colour(kind: string): (colour: string)
    ensures kind == SharedMatrix ==> colour == "#1f77b4"
    ensures kind == SharedTree ==> colour == "#ff7f0e"
    ensures kind != SharedMatrix && kind != SharedTree ==> colour == "#888888"
  {
    var colours := map[SharedMatrix := "#1f77b4", SharedTree := "#ff7f0e"];
    if kind in colours then colours[kind] else "#888888"
  }
}
