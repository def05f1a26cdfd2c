/**
 * The flattening loop of `memory_chart_generator.py`: every parsed value of
 * every metric column of every report row becomes one plot point, labelled
 * with its implementation.
 */
module MemoryChart {
  import opened Wrappers
  import opened CellParser
  import opened Flatten

  /** A report row read back: column name to cell. */
  type Row = map<string, Cell>

  /** The metric columns the chart reads, in the order it reads them. */
  const MetricColumns: seq<string> :=
    ["Elapsed Time (s)", "Heap Used Avg", "Heap Used StdDev", "Margin of Error", "Relative Margin of Error"]

  const SharedMatrix: string := "SharedMatrix"
  const SharedTree: string := "SharedTree"

  /** One entry of `plot_data`. */
  datatype PlotPoint = PlotPoint(operation: Cell, metric: string, value: real, kind: string)

  /** The points of one parsed cell: the SM value, then the ST value, each
      only when present. */
  function CellPoints(operation: Cell, metric: string, parsed: (Option<real>, Option<real>)): (ps: seq<PlotPoint>)
    ensures |ps| == Count(parsed.0) + Count(parsed.1)
  {
    (if parsed.0.Some? then [PlotPoint(operation, metric, parsed.0.value, SharedMatrix)] else [])
    + (if parsed.1.Some? then [PlotPoint(operation, metric, parsed.1.value, SharedTree)] else [])
  }

  /** 1 for a present value, 0 for an absent one. */
  function Count(v: Option<real>): nat {
    if v.Some? then 1 else 0
  }

  /** The points of one metric column of a row: none when the row lacks
      the column; a value `float` refuses raises. */
  function MetricCellPoints(row: Row, operation: Cell, metric: string): Result<seq<PlotPoint>, ChartError> {
    if metric in row then
      var parsed :- ParseCell(row[metric]);
      Success(CellPoints(operation, metric, parsed))
    else Success([])
  }

  /** The points of the first `n` metric columns of a row. */
  function MetricPoints(row: Row, operation: Cell, n: nat): Result<seq<PlotPoint>, ChartError>
    requires n <= |MetricColumns|
  {
    if n == 0 then Success([])
    else
      var earlier :- MetricPoints(row, operation, n - 1);
      var last :- MetricCellPoints(row, operation, MetricColumns[n - 1]);
      Success(earlier + last)
  }

  /** The points of one row; a row without "Operation" raises `KeyError`. */
  function RowPoints(row: Row): Result<seq<PlotPoint>, ChartError> {
    if "Operation" !in row then Failure(KeyError("Operation"))
    else MetricPoints(row, row["Operation"], |MetricColumns|)
  }

  /** `plot_data` after the loop over `rows`, or the exception it raised. */
  function PlotData(rows: seq<Row>): Result<seq<PlotPoint>, ChartError> {
    Gather(rows, RowPoints)
  }

  /** The loop of `main` over the metric columns of one row, appending to
      `plot_data`. */
  method AppendRowPoints(plotData: seq<PlotPoint>, row: Row, operation: Cell) returns (r: Result<seq<PlotPoint>, ChartError>)
    ensures r.Success? <==> MetricPoints(row, operation, |MetricColumns|).Success?
    ensures r.Success? ==> r.value == plotData + MetricPoints(row, operation, |MetricColumns|).value
    ensures r.Failure? ==> r.error == MetricPoints(row, operation, |MetricColumns|).error
  {
    var points := plotData;
    var j := 0;
    while j < |MetricColumns|
      invariant 0 <= j <= |MetricColumns|
      invariant MetricPoints(row, operation, j).Success?
      invariant points == plotData + MetricPoints(row, operation, j).value
    {
      var next := AppendMetricPoints(points, row, operation, MetricColumns[j]);
      MetricPointsStep(row, operation, j);
      if next.Failure? {
        MetricPointsFailureSticks(row, operation, j + 1, |MetricColumns|);
        return next;
      }
      points := next.value;
      j := j + 1;
    }
    return Success(points);
  }

  /** One more metric column: its points follow, or its exception ends the row. */
  lemma MetricPointsStep(row: Row, operation: Cell, j: nat)
    requires j < |MetricColumns| && MetricPoints(row, operation, j).Success?
    ensures MetricPoints(row, operation, j + 1).Success? <==> MetricCellPoints(row, operation, MetricColumns[j]).Success?
    ensures MetricPoints(row, operation, j + 1).Success? ==>
      MetricPoints(row, operation, j + 1).value == MetricPoints(row, operation, j).value + MetricCellPoints(row, operation, MetricColumns[j]).value
  {
  }

  /** The body of the loop over the metric columns: the SM point, then the
      ST point, of one column the row has. */
  method AppendMetricPoints(points: seq<PlotPoint>, row: Row, operation: Cell, metric: string) returns (r: Result<seq<PlotPoint>, ChartError>)
    ensures r.Success? <==> MetricCellPoints(row, operation, metric).Success?
    ensures r.Success? ==> r.value == points + MetricCellPoints(row, operation, metric).value
    ensures r.Failure? ==> r.error == MetricCellPoints(row, operation, metric).error
  {
    if metric !in row {
      return Success(points);
    }
    var parsed := ParseCell(row[metric]);
    if parsed.Failure? {
      return Failure(parsed.error);
    }
    var smVal, stVal := parsed.value.0, parsed.value.1;
    var extended := points;
    if smVal.Some? {
      extended := extended + [PlotPoint(operation, metric, smVal.value, SharedMatrix)];
    }
    if stVal.Some? {
      extended := extended + [PlotPoint(operation, metric, stVal.value, SharedTree)];
    }
    return Success(extended);
  }

  /** The nested loops of `main`, appending to `plot_data` in place. */
  method CollectPlotData(rows: seq<Row>) returns (r: Result<seq<PlotPoint>, ChartError>)
    ensures r == PlotData(rows)
  {
    var plotData: seq<PlotPoint> := [];
    var i := 0;
    while i < |rows|
      invariant 0 <= i <= |rows|
      invariant PlotData(rows[..i]) == Success(plotData)
    {
      var row := rows[i];
      assert rows[..i + 1] == rows[..i] + [row];
      GatherSnoc(rows[..i], row, RowPoints);
      if "Operation" !in row {
        GatherFailureSticks(rows, i + 1, RowPoints);
        return Failure(KeyError("Operation"));
      }
      var operation := row["Operation"];
      var next := AppendRowPoints(plotData, row, operation);
      if next.Failure? {
        GatherFailureSticks(rows, i + 1, RowPoints);
        return next;
      }
      plotData := next.value;
      i := i + 1;
    }
    assert rows[..|rows|] == rows;
    return Success(plotData);
  }

  lemma {:induction false} MetricPointsFailureSticks(row: Row, operation: Cell, n: nat, m: nat)
    requires n <= m <= |MetricColumns| && MetricPoints(row, operation, n).Failure?
    ensures MetricPoints(row, operation, m) == MetricPoints(row, operation, n)
    decreases m - n
  {
    if n < m {
      MetricPointsFailureSticks(row, operation, n, m - 1);
    }
  }

  /** The number of values a cell contributes: its present SM and ST values. */
  function CellCount(c: Cell): nat {
    match ParseCell(c)
    case Success(parsed) => Count(parsed.0) + Count(parsed.1)
    case Failure(_) => 0
  }

  /** The values the first `n` metric columns of a row contribute. */
  function RowCount(row: Row, n: nat): nat
    requires n <= |MetricColumns|
  {
    if n == 0 then 0
    else RowCount(row, n - 1) + (if MetricColumns[n - 1] in row then CellCount(row[MetricColumns[n - 1]]) else 0)
  }

  /** The values all rows contribute. */
  function TotalCount(rows: seq<Row>): nat {
    if rows == [] then 0 else TotalCount(rows[..|rows| - 1]) + RowCount(rows[|rows| - 1], |MetricColumns|)
  }

  lemma {:induction false} MetricPointsCount(row: Row, operation: Cell, n: nat)
    requires n <= |MetricColumns| && MetricPoints(row, operation, n).Success?
    ensures |MetricPoints(row, operation, n).value| == RowCount(row, n)
  {
    if n > 0 {
      MetricPointsCount(row, operation, n - 1);
      var metric := MetricColumns[n - 1];
      if metric in row {
        var parsed := ParseCell(row[metric]);
        assert |MetricCellPoints(row, operation, metric).value| == Count(parsed.value.0) + Count(parsed.value.1);
      }
    }
  }

  /** One point per present parsed value: the number of points is the
      number of values the rows hold. */
  lemma {:induction false} PlotDataCount(rows: seq<Row>)
    requires PlotData(rows).Success?
    ensures |PlotData(rows).value| == TotalCount(rows)
  {
    if rows != [] {
      var init, row := rows[..|rows| - 1], rows[|rows| - 1];
      assert rows == init + [row];
      GatherSnoc(init, row, RowPoints);
      PlotDataCount(init);
      MetricPointsCount(row, row["Operation"], |MetricColumns|);
    }
  }

  /** A point of a parsed cell is its SM value labelled SharedMatrix or its
      ST value labelled SharedTree, with the cell's operation and metric. */
  predicate FromCell(p: PlotPoint, operation: Cell, metric: string, parsed: (Option<real>, Option<real>)) {
    p.operation == operation && p.metric == metric &&
    ((p.kind == SharedMatrix && parsed.0 == Some(p.value)) || (p.kind == SharedTree && parsed.1 == Some(p.value)))
  }

  lemma CellPointsMembers(operation: Cell, metric: string, parsed: (Option<real>, Option<real>))
    ensures forall p :: p in CellPoints(operation, metric, parsed) <==> FromCell(p, operation, metric, parsed)
  {
  }

  /** A point comes from the first `n` columns exactly when one of those
      columns is in the row and its parsed cell yields the point. */
  lemma {:induction false} MetricPointsMembers(row: Row, operation: Cell, n: nat)
    requires n <= |MetricColumns| && MetricPoints(row, operation, n).Success?
    ensures forall p :: p in MetricPoints(row, operation, n).value <==>
              exists k :: 0 <= k < n && MetricColumns[k] in row && ParseCell(row[MetricColumns[k]]).Success?
                          && FromCell(p, operation, MetricColumns[k], ParseCell(row[MetricColumns[k]]).value)
  {
    if n > 0 {
      MetricPointsMembers(row, operation, n - 1);
      var metric := MetricColumns[n - 1];
      if metric in row {
        CellPointsMembers(operation, metric, ParseCell(row[metric]).value);
      }
      forall p | p in MetricPoints(row, operation, n).value
        ensures exists k :: 0 <= k < n && MetricColumns[k] in row && ParseCell(row[MetricColumns[k]]).Success?
                            && FromCell(p, operation, MetricColumns[k], ParseCell(row[MetricColumns[k]]).value)
      {
        if p !in MetricPoints(row, operation, n - 1).value {
          assert MetricColumns[n - 1] in row;
        }
      }
      forall p, k | 0 <= k < n && MetricColumns[k] in row && ParseCell(row[MetricColumns[k]]).Success?
                    && FromCell(p, operation, MetricColumns[k], ParseCell(row[MetricColumns[k]]).value)
        ensures p in MetricPoints(row, operation, n).value
      {
        if k < n - 1 {
          assert p in MetricPoints(row, operation, n - 1).value;
        }
      }
    }
  }

  /** The points of later rows follow those of earlier ones: the points of
      two tables read one after the other are the two lists of points in
      turn. */
  lemma PlotDataAppend(rows: seq<Row>, more: seq<Row>)
    requires PlotData(rows).Success? && PlotData(more).Success?
    ensures PlotData(rows + more) == Success(PlotData(rows).value + PlotData(more).value)
  {
    GatherAppend(rows, more, RowPoints);
  }

  /** The points of a row are those of its metric columns. */
  lemma RowPointsMembers(row: Row, p: PlotPoint)
    requires RowPoints(row).Success?
    ensures "Operation" in row
    ensures p in RowPoints(row).value <==>
              exists k :: 0 <= k < |MetricColumns| && MetricColumns[k] in row && ParseCell(row[MetricColumns[k]]).Success?
                          && FromCell(p, row["Operation"], MetricColumns[k], ParseCell(row[MetricColumns[k]]).value)
  {
    MetricPointsMembers(row, row["Operation"], |MetricColumns|);
  }

  /** A point is plotted exactly when some row yields it. */
  lemma PlotDataMembers(rows: seq<Row>, p: PlotPoint)
    requires PlotData(rows).Success?
    ensures forall i :: 0 <= i < |rows| ==> RowPoints(rows[i]).Success?
    ensures p in PlotData(rows).value <==> exists i :: 0 <= i < |rows| && p in RowPoints(rows[i]).value
  {
    GatherRowsSucceed(rows, RowPoints);
    if p in PlotData(rows).value {
      GatherFrom(rows, RowPoints, p);
    }
    if exists i :: 0 <= i < |rows| && p in RowPoints(rows[i]).value {
      var i :| 0 <= i < |rows| && p in RowPoints(rows[i]).value;
      GatherTo(rows, RowPoints, i, p);
    }
  }
}
