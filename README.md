# Memory report pipeline, modelled in Dafny

The repository compares two implementations of a table data structure:
SharedMatrix (SM) and SharedTree (ST). It works in three stages:

- **Extraction.** A generator scans the benchmark result files of each
  implementation. It classifies every benchmark under a canonical operation
  name ("Insert row", "Set cell value", ...). For each run it keeps a record
  of the elapsed time, the heap statistics, the margins of error and the
  iteration count.
- **Report.** The generator averages each operation's runs, metric by metric,
  and writes one report. The report has a row per operation, in ascending
  order. Each metric cell holds the SM mean and the ST mean on separate lines
  (`SM: v` / `ST: v`).
- **Charts.** Two chart scripts read the report back. They parse every cell
  into its SM and ST values and flatten the rows into plot points. One script
  makes one point per value. The other makes one heap bar per implementation,
  with its margin of error as the error bar.

The Dafny project models these stages as follows:

- `Wrappers`: `Option` and `Result` (Python's exceptions become `Failure`).
- `Text`: Python's `\s`, `\w`, `\d` and `str.lower` on ASCII, and Python's
  string order.
- `Classifier`: `extract_operation_name`. This is the ordered pattern table,
  read as regular-expression searches, plus the three fallback substitutions.
- `Extractor`: `read_json_files` on already-decoded files. It is a nested-loop
  method proved equal to a functional scan. The grouping is proved against a
  flat reference list, and the `KeyError` path is modelled.
- `Aggregator`: `aggregate_data`, with per-metric means over the present
  values and the truthy iteration total.
- `Report`: the merge, sort and format part of `generate_csv`, by methods
  proved against row, cell and table functions.
- `CellParser`: `parse_multi_value_cell`, of which both chart scripts carry the same copy (`memory_chart_generator.py:7-19`, `heap_usage_with_error_bars.py:7-19`). This covers the leftmost regex
  search, the greedy group, and `float` on the captured text.
- `Flatten`: the shared shape of the chart loops. The loop appends each row's
  entries and stops at the first exception.
- `MemoryChart`, `HeapChart`: the two flattening loops, as methods proved
  against functions, and the colour lookup.
- `RoundTrip`: parsing a cell the generator formatted gives back the means
  it printed, in either line order, when the means are written without an
  exponent; a mean written in exponent form reads back wrong.

The classifier follows the code, not its comment. The comment at
`generate_memory_csv_enhanced.py:60` says the patterns are tried "in order
of specificity". The table, however, lists each generic pattern (`insert.*row`)
before its Undo and Redo variants. Any text the variant matches, the generic
pattern matches too, so the generic one always wins. The model keeps the
table order. `Classifier.UndoRedoShadowed` and
`Classifier.FirstMatchNeverUndoRedo` prove that the pattern table never
yields an Undo or Redo name. The fallback still can: in
"A Undo ins in the middleert row" no pattern matches, but dropping the first
word and " in the middle" leaves "Undo insert row"
(`Classifier.UndoNameFromFallback`).

## Model

| member | source | states |
|---|---|---|
| Text.SpaceRunEnd | generate_memory_csv_enhanced.py:67-69 | the end of the maximal run of `\s` characters from a position: all of it is whitespace, and the next character is not |
| Text.SpaceRunEndIs | generate_memory_csv_enhanced.py:67-69 | a whitespace run that stops before a non-space character, or at the end, is the maximal run `\s+` matches |
| Text.WordRunEnd | generate_memory_csv_enhanced.py:67 | the end of the maximal run of `\w` characters from a position |
| Text.BelowIrreflexive | generate_memory_csv_enhanced.py:175 | no string sorts before itself |
| Text.BelowTransitive | generate_memory_csv_enhanced.py:175 | the string order used by `sorted` is transitive |
| Text.BelowTotal | generate_memory_csv_enhanced.py:175 | any two distinct strings are ordered one way or the other |
| Text.LeastExists | generate_memory_csv_enhanced.py:175 | every non-empty set of operation names has a least element, which is where `sorted` starts |
| Classifier.StripLeadingWord | generate_memory_csv_enhanced.py:67 | the result is a suffix of the name; it differs from the name exactly when the name starts with a word followed by whitespace; and then the word and all of that whitespace are gone |
| Classifier.LeadingWordSplit | generate_memory_csv_enhanced.py:67 | a leading word and whitespace can only split the name at the end of the maximal word run, within the maximal space run after it |
| Classifier.FirstTimesSuffix | generate_memory_csv_enhanced.py:68 | finds the leftmost start of a `\s+\d+\s+times?` match that reaches the anchor, or reports that none exists |
| Classifier.StripTimes | generate_memory_csv_enhanced.py:68 | the name changes exactly when a repetition suffix such as " 10 times" matches at `$` |
| Classifier.RemoveMiddleUnchanged | generate_memory_csv_enhanced.py:69 | removing " in the middle" leaves the text unchanged exactly when no occurrence exists |
| Classifier.RemoveMiddle | generate_memory_csv_enhanced.py:69 | `re.sub(r'\s+in the middle', '', s)` as a left-to-right scan that drops each whitespace run followed by the phrase; it never lengthens the text; `RemoveMiddleSkips` (a stretch with no match is kept) and `RemoveMiddleDrops` (a match is dropped whole and the scan resumes after it) characterise it |
| Classifier.MiddleAtRunEnd | generate_memory_csv_enhanced.py:69 | `\s+in the middle` matches at a position exactly when whitespace starts there and the phrase follows the whole whitespace run |
| Classifier.MiddleShift | generate_memory_csv_enhanced.py:69 | a match in the text after its first character is a match one place later in the whole text, and back |
| Classifier.Fallback | generate_memory_csv_enhanced.py:67-69 | the three substitutions, applied in source order to the original (not lower-cased) name; `ClassifyFallback` states what `Classify` does with it |
| Classifier.FirstMatch | generate_memory_csv_enhanced.py:61-63 | the loop over the table in its order, returning the first matching entry's name; `FirstMatchFound` states its meaning |
| Classifier.Classify | generate_memory_csv_enhanced.py:54-71 | a non-empty benchmark name never yields an empty operation name, since an empty cleaned name falls back to the original |
| Classifier.FirstMatchFound | generate_memory_csv_enhanced.py:61-63 | the table loop finds nothing exactly when no pattern matches; otherwise it returns the name of a matching entry with no earlier match |
| Classifier.ClassifyFirstMatch | generate_memory_csv_enhanced.py:58-63 | the first matching pattern in table order, on the lower-cased name, decides the operation |
| Classifier.ClassifyFallback | generate_memory_csv_enhanced.py:65-71 | with no pattern matching, the operation is the three substitutions applied in order, or the original name when they leave nothing |
| Classifier.DropLeadingPart | generate_memory_csv_enhanced.py:62 | any text that a pattern `x.*rest` finds, the pattern `rest` alone finds too |
| Classifier.UndoRedoShadowed | generate_memory_csv_enhanced.py:31-52 | each entry at a position not a multiple of three is an Undo or Redo entry whose pattern is one leading literal followed by the pattern of the generic entry one or two places before it, which has no Undo or Redo name |
| Classifier.RuleNamesNonEmpty | generate_memory_csv_enhanced.py:31-52 | every entry of the table names an operation |
| Classifier.FirstMatchNamed | generate_memory_csv_enhanced.py:61-63 | the loop only returns names from the table, which are non-empty |
| Classifier.FirstMatchAvoids | generate_memory_csv_enhanced.py:61-63 | a name that is always preceded by an entry matching the same texts is never returned |
| Classifier.FirstMatchNeverUndoRedo | generate_memory_csv_enhanced.py:31-63 | the table loop never returns an Undo or Redo operation name |
| Classifier.GenericNamesNotUndoRedo | generate_memory_csv_enhanced.py:31-52 | every Undo or Redo entry sits at a position that is not a multiple of three, so the generic entries at 0, 3, 6, 9 and 12 are none of them |
| Classifier.UndoInsertRowIsInsertRow | generate_memory_csv_enhanced.py:54-63 | "Undo Insert Row" is classified as "Insert row" |
| Classifier.UndoNameFromFallback | generate_memory_csv_enhanced.py:54-71 | "A Undo ins in the middleert row" is classified as "Undo insert row", an Undo name, because no pattern matches and the fallback joins "ins" to "ert" |
| Classifier.FallbackTableMisses | generate_memory_csv_enhanced.py:58-63 | no pattern of the table matches that name lower-cased, which holds none of "insert", "remove" and "set" |
| Classifier.SecondPartNeeded | generate_memory_csv_enhanced.py:62 | a text that a pattern of two or more literals matches contains the second literal |
| Classifier.FallbackCleaned | generate_memory_csv_enhanced.py:67-69 | the three substitutions turn that name into "Undo insert row" |
| Classifier.NoTimesSuffix | generate_memory_csv_enhanced.py:68 | a text without digits is left unchanged by the repetition-suffix substitution |
| Classifier.RemoveMiddleSkips | generate_memory_csv_enhanced.py:69 | when no match starts in a prefix, the substitution keeps that prefix and goes on with the rest |
| Classifier.RemoveMiddleDrops | generate_memory_csv_enhanced.py:69 | a whitespace run followed by "in the middle" at the front is removed together with the phrase, and the substitution continues on what follows |
| Extractor.KeptIffSomeField | generate_memory_csv_enhanced.py:95-110 | a benchmark is kept exactly when it has `elapsedSeconds` or one of the five `customData` keys; every field of the record is present exactly when its key is, so a missing one stays absent, never zero |
| Extractor.RecordOf | generate_memory_csv_enhanced.py:97-105 | the record built by `.get` on the benchmark and its `customData`; `KeptIffSomeField` states each field |
| Extractor.HasData | generate_memory_csv_enhanced.py:108-109 | the keep test: some field other than the source file is present |
| Extractor.BenchmarksOf | generate_memory_csv_enhanced.py:89-90 | the benchmarks a file contributes, none for a file without content or with missing, null or empty `benchmarks`; `FileWithoutBenchmarks` states that such a file changes nothing |
| Extractor.AddBenchmark | generate_memory_csv_enhanced.py:94-110 | one benchmark step: `KeyError` without `benchmarkName`, otherwise the record appended under its operation when kept; `AddBenchmarkGroups` states the step against the flat list |
| Extractor.AddBenchmarks | generate_memory_csv_enhanced.py:93-110 | the benchmark loop of one file; `AddBenchmarksGroups`, `AddBenchmarksFails` and `AddBenchmarksFailureSticks` state its meaning |
| Extractor.ReadAll | generate_memory_csv_enhanced.py:84-92 | the count of processed files never exceeds the number of files |
| Extractor.AddBenchmarksFailureSticks | generate_memory_csv_enhanced.py:93-94 | once a benchmark raises, the remaining benchmarks of the file change nothing |
| Extractor.ReadAllFailureSticks | generate_memory_csv_enhanced.py:84-94 | once the scan raises, the remaining files change nothing |
| Extractor.ReadJsonFiles | generate_memory_csv_enhanced.py:73-116 | the nested-loop scan, with `data` updated in place, gives exactly the functional scan's groups and file count, or its exception |
| Extractor.AddFileBenchmarks | generate_memory_csv_enhanced.py:93-110 | the inner loop over one file's benchmarks gives the functional inner scan, raising `KeyError` at the first benchmark without a name |
| Extractor.FilterAppend | generate_memory_csv_enhanced.py:110 | filtering the flat list by operation distributes over appending one pair |
| Extractor.GroupedInsert | generate_memory_csv_enhanced.py:110 | appending a record under its operation keeps the groups equal to the flat list filtered by operation |
| Extractor.AddBenchmarkGroups | generate_memory_csv_enhanced.py:93-110 | one benchmark step keeps the groups in step with the flat list of kept pairs |
| Extractor.AddBenchmarksGroups | generate_memory_csv_enhanced.py:93-110 | a file's benchmarks keep the groups in step with the flat list |
| Extractor.ReadAllGroups | generate_memory_csv_enhanced.py:75-110 | the scan's groups are the kept (operation, record) pairs in scan order, filtered by operation; every key has a non-empty list |
| Extractor.AddBenchmarksFails | generate_memory_csv_enhanced.py:93-94 | a file's loop raises exactly when one of its benchmarks has no `benchmarkName`, and the error is that `KeyError` |
| Extractor.ReadAllFails | generate_memory_csv_enhanced.py:84-114 | the scan raises exactly when some file with benchmarks has one without `benchmarkName`; the per-file handler does not catch it |
| Extractor.FileWithoutBenchmarks | generate_memory_csv_enhanced.py:89-90 | an unreadable file, or one with missing, null or empty `benchmarks`, changes neither the groups nor the count |
| Extractor.FileWithBenchmarksCounted | generate_memory_csv_enhanced.py:89-92 | a file with benchmarks adds exactly one to the count of processed files |
| Aggregator.Aggregate | generate_memory_csv_enhanced.py:119-137 | no records give no aggregate; otherwise the run count is the number of records, each metric is its mean and the iteration total is the truthy sum |
| Aggregator.Present | generate_memory_csv_enhanced.py:131 | `[d[metric] for d in data_list if d.get(metric) is not None]`; `PresentAppend`, `PresentPermutation` and `MeanAbsent` state its properties |
| Aggregator.Sum | generate_memory_csv_enhanced.py:132 | `sum` over a list of values; `SumAppend` and `SumBounds` state its properties |
| Aggregator.Mean | generate_memory_csv_enhanced.py:131-132 | a metric's mean over its present values, `None` when there are none; `MeanAbsent`, `MeanBounds`, `MeanOwnField` and `MeanIsAccumulated` state its meaning |
| Aggregator.TotalIterations | generate_memory_csv_enhanced.py:128-135 | the sum of the truthy iteration counts, `None` unless positive; `IterationTotal` states its meaning |
| Aggregator.PresentAppend | generate_memory_csv_enhanced.py:131 | the present values of a concatenation are those of each part, in order |
| Aggregator.SumAppend | generate_memory_csv_enhanced.py:132 | `sum` distributes over concatenation |
| Aggregator.PresentPermutation | generate_memory_csv_enhanced.py:131-132 | reordering the records changes neither the sum nor the number of a metric's present values |
| Aggregator.AggregatePermutation | generate_memory_csv_enhanced.py:119-137 | the aggregate does not depend on the order of the runs, as with files that the scan meets in any order |
| Aggregator.MeanAbsent | generate_memory_csv_enhanced.py:131-132 | a metric's mean is `None` exactly when no record has that metric |
| Aggregator.SumBounds | generate_memory_csv_enhanced.py:132 | values between two bounds sum to between count × lower and count × upper |
| Aggregator.PresentWithin | generate_memory_csv_enhanced.py:131 | bounds on the records' values bound every present value |
| Aggregator.MeanBounds | generate_memory_csv_enhanced.py:131-132 | a mean lies between any bounds of the values it averages |
| Aggregator.DivideBounds | generate_memory_csv_enhanced.py:132 | a total between n × lower and n × upper, divided by n, lies between the bounds |
| Aggregator.MeanOwnField | generate_memory_csv_enhanced.py:130-132 | each metric's mean depends on that metric alone, with its own denominator, so a ragged record set averages each metric over its own runs |
| Aggregator.PresentOwnField | generate_memory_csv_enhanced.py:131 | the present values of a metric depend on that metric alone |
| Aggregator.ZerosAddNothing | generate_memory_csv_enhanced.py:128 | skipping zero iteration counts does not change the total |
| Aggregator.IterationTotal | generate_memory_csv_enhanced.py:128-135 | the iteration total is present exactly when the sum of all iteration counts is positive, and then it is that sum |
| Aggregator.AccumulateFrom | generate_memory_csv_enhanced.py:130-132 | a running sum and count over the records ends at the sum and count of the present values |
| Aggregator.MeanIsAccumulated | generate_memory_csv_enhanced.py:130-132 | the mean equals a per-metric accumulator of sum and count run from zero |
| Aggregator.RaggedExample | generate_memory_csv_enhanced.py:119-137 | runs with elapsed times 10 and 20, heap missing in one and 100 in the other, average to elapsed 15 and heap 100 over 2 runs |
| Aggregator.RaggedPresent | generate_memory_csv_enhanced.py:131 | the present values of each field in that example |
| Report.HeaderNamesMetrics | generate_memory_csv_enhanced.py:165-172 | the header is "Operation" followed by the column name of each metric, in metric order |
| Report.FormatCell | generate_memory_csv_enhanced.py:182-193 | a cell is empty exactly when both means are absent; otherwise it is the SM line, the ST line, or both joined by a line feed with SM first |
| Report.Cells | generate_memory_csv_enhanced.py:181-193 | a row has one metric cell per metric |
| Report.RowFor | generate_memory_csv_enhanced.py:175-193 | an operation's row has the width of the header and starts with the operation |
| Report.BuildCells | generate_memory_csv_enhanced.py:181-193 | the cell loop builds each metric's cell from its collected lines, giving the cells of the two aggregates |
| Report.BuildRow | generate_memory_csv_enhanced.py:175-193 | the body of the row loop gives the row of the operation's two aggregates |
| Report.SortedOperations | generate_memory_csv_enhanced.py:146-175 | `sorted(all_operations)`: the set's elements, each once, in strictly ascending order |
| Report.SortedRows | generate_memory_csv_enhanced.py:146-193 | rows built for the sorted operations have one row per operation, each as wide as the header and starting with its operation, in ascending order |
| Report.BuildRows | generate_memory_csv_enhanced.py:175-191 | the row loop gives, in order, the row of each operation it is given |
| Report.GenerateCsv | generate_memory_csv_enhanced.py:146-193 | no report when neither side has an operation; otherwise the header, and exactly one row per operation of either side, each that operation's row, sorted by operation |
| Report.RowForCells | generate_memory_csv_enhanced.py:175-193 | each metric cell of a row formats the two sides' means for that metric |
| Report.OneSidedRow | generate_memory_csv_enhanced.py:176-190 | an operation that ST never ran shows only SM lines, or empty cells |
| Report.HeapCellExample | generate_memory_csv_enhanced.py:175-193 | SM heap runs of 1000 and 3000 and an ST run of 500 give the heap cell "SM: 2000" over "ST: 500" |
| Report.HeapMeans | generate_memory_csv_enhanced.py:131-132 | the aggregated heap means of that example |
| Report.PairMean | generate_memory_csv_enhanced.py:131-132 | the mean of heap values 1000 and 3000 is 2000 |
| Report.SingleMean | generate_memory_csv_enhanced.py:131-132 | the mean of a single heap value 500 is 500 |
| CellParser.NumRunEnd | memory_chart_generator.py:13 | the end of the greedy `[-\d.]+` run from a position |
| CellParser.MatchAt | memory_chart_generator.py:13 | `tag\s*([-\d.]+)` matches at a position; `MatchAtMeans` states it in the terms of the regular expression |
| CellParser.MatchAtMeans | memory_chart_generator.py:13 | `tag\s*([-\d.]+)` matches at a position exactly when the tag is there and, after some whitespace, a class character follows |
| CellParser.Group | memory_chart_generator.py:13 | the captured group is the non-empty maximal class run right after the tag's whitespace |
| CellParser.Search | memory_chart_generator.py:13 | a position it returns is a match |
| CellParser.SearchLeftmost | memory_chart_generator.py:13 | the search returns the leftmost match from its start, or nothing exactly when there is none |
| CellParser.Value | memory_chart_generator.py:13 | a tag's value is non-empty text of `-`, digits and `.` |
| CellParser.ValueAbsent | memory_chart_generator.py:13-17 | a tag has no value exactly when it matches nowhere |
| CellParser.ValueLeftmost | memory_chart_generator.py:13 | a tag's value is the group of its leftmost match |
| CellParser.DotIndex | memory_chart_generator.py:16 | the position of the first `.`, or the end when there is none |
| CellParser.Unsigned | memory_chart_generator.py:16 | an unsigned decimal: digits, an optional point and digits, at least one digit in all; `UnsignedDecimal` and `UnsignedWhole` state its value |
| CellParser.ParseFloat | memory_chart_generator.py:16 | `float` on a class text: an optional minus and an unsigned decimal, `None` (a `ValueError`) otherwise; `ParseWholeText`, `ParseFloatRejects`, `ParseFloatFraction`, `ParseFloatNegative` and `ParseFloatPoints` state its behaviour |
| CellParser.Convert | memory_chart_generator.py:16-17 | no match gives `None`; a group `float` accepts gives its value; any other group raises `ValueError` with that text |
| CellParser.ParseCell | memory_chart_generator.py:7-19 | a missing (NaN) or empty cell gives no values |
| CellParser.Digits | memory_chart_generator.py:16 | a number's decimal digits are a non-empty digit string |
| CellParser.NaturalDigits | memory_chart_generator.py:16 | reading a number's decimal digits gives the number back |
| CellParser.UnsignedWhole | memory_chart_generator.py:16 | `float` on digits followed by ".0" gives the whole number |
| CellParser.DotAfterDigits | memory_chart_generator.py:16 | in digits, a point and more, the first point follows the digits |
| CellParser.ParseWholeText | memory_chart_generator.py:16 | `float` reads back a whole value rendered as digits and ".0", with or without a minus sign |
| CellParser.ParseFloatRejects | memory_chart_generator.py:16 | `float` raises on "", "-", ".", "--1", "1-2" and "1.2.3", all of which the class can capture |
| CellParser.UnsignedDecimal | memory_chart_generator.py:16 | digits, a point and digits read as the whole part plus the fraction over its power of ten |
| CellParser.ParseFloatFraction | memory_chart_generator.py:16 | `float("2.5")` is 2.5 |
| CellParser.ParseFloatNegative | memory_chart_generator.py:16 | `float("-0.25")` is -0.25 |
| CellParser.ParseFloatPoints | memory_chart_generator.py:16 | `float` accepts a leading point (".5") and a trailing one ("7.") |
| CellParser.ParseCellSides | memory_chart_generator.py:13-19 | in a parsed cell, each side is absent exactly when its tag never matches, and otherwise is `float` of its leftmost group |
| CellParser.ParseCellValue | memory_chart_generator.py:13-19 | a parsed non-empty cell holds the two converted values |
| CellParser.ParseCellRaises | memory_chart_generator.py:16-17 | the SM value is converted first, so its error wins; a cell parses exactly when both conversions succeed |
| Flatten.GatherSnoc | memory_chart_generator.py:35-60 | one more row appends its entries, or its exception ends the loop; an earlier exception persists |
| Flatten.GatherAppend | memory_chart_generator.py:35-60 | rows read in two parts give the two lists of entries in turn |
| Flatten.GatherAppendSnoc | memory_chart_generator.py:35-60 | the inductive step of the two-part reading |
| Flatten.GatherFailureSticks | memory_chart_generator.py:35-60 | once a prefix of the rows raises, the whole loop raises the same error |
| Flatten.GatherRowsSucceed | memory_chart_generator.py:35-60 | in a loop that did not raise, every row gave its entries |
| Flatten.GatherFrom | memory_chart_generator.py:35-60 | every entry of the list comes from some row |
| Flatten.GatherTo | memory_chart_generator.py:35-60 | every entry of every row is in the list |
| MemoryChart.CellPoints | memory_chart_generator.py:46-60 | a parsed cell gives one point per present value |
| MemoryChart.MetricPoints | memory_chart_generator.py:42-60 | the points of the first n metric columns of a row, stopping at the first error; `MetricPointsCount`, `MetricPointsMembers` and `MetricPointsFailureSticks` state its meaning |
| MemoryChart.RowPoints | memory_chart_generator.py:35-60 | one row's body: `KeyError` without Operation, otherwise the points of all metric columns; `RowPointsMembers` states its meaning |
| MemoryChart.PlotData | memory_chart_generator.py:33-60 | `plot_data` after the row loop, or its first exception; `PlotDataCount`, `PlotDataMembers` and `PlotDataAppend` state its meaning |
| MemoryChart.AppendRowPoints | memory_chart_generator.py:42-60 | the metric loop of a row appends that row's points, or stops with its first exception |
| MemoryChart.MetricPointsStep | memory_chart_generator.py:42-60 | one more metric column appends its points, or its exception ends the row |
| MemoryChart.AppendMetricPoints | memory_chart_generator.py:43-60 | a missing column adds nothing; a present one adds the SM point, then the ST point, for the values present, or raises the parser's error |
| MemoryChart.CollectPlotData | memory_chart_generator.py:33-60 | the row loop, appending to `plot_data` in place, gives exactly the flattened points of all rows, or the first exception |
| MemoryChart.MetricPointsFailureSticks | memory_chart_generator.py:42-44 | once a column raises, the rest of the row changes nothing |
| MemoryChart.MetricPointsCount | memory_chart_generator.py:42-60 | a row gives exactly as many points as its present metric columns hold values |
| MemoryChart.PlotDataCount | memory_chart_generator.py:33-60 | `plot_data` has exactly as many points as the report's metric cells hold values |
| MemoryChart.CellPointsMembers | memory_chart_generator.py:46-60 | a point comes from a cell exactly when it carries the cell's operation, metric, a present value and that value's implementation |
| MemoryChart.MetricPointsMembers | memory_chart_generator.py:42-60 | a row's points are exactly the points of its present metric columns |
| MemoryChart.PlotDataAppend | memory_chart_generator.py:35-60 | the points of two parts of a report follow one another |
| MemoryChart.RowPointsMembers | memory_chart_generator.py:35-60 | a row that did not raise has an Operation, and its points are those of its cells |
| MemoryChart.PlotDataMembers | memory_chart_generator.py:33-60 | a point is in `plot_data` exactly when it is a point of some row |
| HeapChart.Lookup | heap_usage_with_error_bars.py:32-38 | `row[column]` gives the cell, or raises `KeyError` with the column |
| HeapChart.Bar | heap_usage_with_error_bars.py:40-54 | an implementation gets one bar exactly when both its heap value and its margin are present, and the bar pairs them |
| HeapChart.SideBars | heap_usage_with_error_bars.py:40-54 | the SM bar, then the ST bar, of a row; `SideBarsShape` states its meaning |
| HeapChart.RowBars | heap_usage_with_error_bars.py:31-54 | one row's body, with the three lookups and two parses in source order; `RowBarsParsed` states its meaning |
| HeapChart.HeapData | heap_usage_with_error_bars.py:29-54 | `plot_data` after the row loop, or its first exception; `HeapDataBound` and `HeapDataAppend` state its properties |
| HeapChart.AppendRowBars | heap_usage_with_error_bars.py:31-54 | a row's body looks up Operation, parses the heap cell, then the margin cell, and appends the row's bars, or raises the first error |
| HeapChart.CollectHeapData | heap_usage_with_error_bars.py:29-54 | the row loop, appending to `plot_data` in place, gives exactly the bars of all rows, or the first exception |
| HeapChart.SideBarsShape | heap_usage_with_error_bars.py:40-54 | a row gives at most two bars; each side's bar exists exactly when that side has both values, and pairs that side's values; the SM bar comes first |
| HeapChart.RowBarsParsed | heap_usage_with_error_bars.py:32-38 | a row that did not raise has the three columns, both cells parse, and its bars are those of the parsed values |
| HeapChart.HeapDataAppend | heap_usage_with_error_bars.py:31-54 | the bars of two parts of a report follow one another |
| HeapChart.HeapDataBound | heap_usage_with_error_bars.py:29-54 | there are at most two bars per row |
| HeapChart.Colour | heap_usage_with_error_bars.py:71-85 | SharedMatrix is drawn "#1f77b4", SharedTree "#ff7f0e", and any other kind "#888888" |
| RoundTrip.GroupAt | memory_chart_generator.py:13 | a tag, one space and a number that ends at a line feed or the end of the text match, and the group is the number |
| RoundTrip.ValueFirst | memory_chart_generator.py:13 | a match with no earlier one supplies the tag's value |
| RoundTrip.OneLine | memory_chart_generator.py:13-14 | a one-line cell holds its own tag's number and no value for the other tag |
| RoundTrip.TwoLines | memory_chart_generator.py:13-14 | a two-line cell holds each tag's number, whichever line comes first |
| RoundTrip.SingleLine | generate_memory_csv_enhanced.py:182-193 | a one-sided formatted cell parses back to that side's value alone |
| RoundTrip.BothLines | generate_memory_csv_enhanced.py:182-193 | a two-sided formatted cell parses back to both values |
| RoundTrip.FormatParseRoundTrip | generate_memory_csv_enhanced.py:182-193 | parsing any cell the generator formats, with the chart scripts' parser, gives back the two means it printed, an absent side as absent |
| RoundTrip.SwappedLines | memory_chart_generator.py:13-14 | a cell with the ST line first parses to the same pair |
| RoundTrip.ExponentCut | memory_chart_generator.py:13-16 | the cell "SM: 5e-05", which is how `str` writes a mean of 0.00005, parses to an SM value of 5 and no ST value, because the class run stops at the `e` |
| RoundTrip.ExponentValues | memory_chart_generator.py:13-14 | in "SM: 5e-05" the SM group is "5" and the ST tag does not match |
| RoundTrip.FiveParses | memory_chart_generator.py:16 | `float("5")` is 5 |

## Left out

- Reading the directories is not modelled: the recursive `*_perfresult.json` scan, the warning for a missing directory, and file I/O. The scan takes the files as a sequence of already-decoded documents in scan order. A file that cannot be opened or is not valid JSON is a file without content, as in the `except` branch.
- Extractor.ReadAll: the model's documents are always objects and its benchmarks always objects with an optional string name, so it skips or keeps files where the source raises. A file that is not valid UTF-8 makes `json.load` raise `UnicodeDecodeError`, which the handler does not catch. A top-level `null`, number or boolean makes the `'benchmarks' not in json_data` test at line 89 raise `TypeError`. A top-level array or string passes that test and, unless it contains `"benchmarks"` (as an element, or as a substring), is skipped like the model's file without content. One that does contain it makes `json_data['benchmarks']` raise `TypeError`. A `benchmarkName` that is JSON `null` or not a string passes the lookup at line 94 and then raises `AttributeError` at `.lower()`. A `benchmarks` value, benchmark entry or `customData` of the wrong JSON type likewise raises. None of these is caught by the handler at line 112, so each aborts the whole scan in the source; the model's `ReadError` only records the `KeyError` of a missing name.
- JSON decoding, printing, writing the report through `csv.writer` (quoting included), `pandas.read_csv`, and all plotly figure building and layout are not modelled. The report is a sequence of rows of strings, and the chart scripts read rows as maps from column name to cell.
- `debug_aggregation.py` is not part of this model.
- Floating point is modelled as `real`, so rounding in `sum(values) / len(values)` and in `float` is not modelled.
- `str` on a float is the parameter `render` of the report functions. `RoundTrip.FormatParseRoundTrip` holds for values whose rendering `float` reads back. This excludes the exponent form that `str` uses below 0.0001 and from 1e16 up. `RoundTrip.ExponentCut` shows that such a cell does not survive the trip.
- RoundTrip.FormatParseRoundTrip: covers only means that print exactly, because floats are reals here. A mean such as 1/3, from three runs, has no finite decimal rendering that `float` reads back as that real, so its `Renders` premise cannot hold and the lemma says nothing about such a mean.
- Regular expressions, `\s`, `\w`, `\d` and `str.lower` are modelled on ASCII only. Unicode classes and case folding are not modelled.
- `customData` values are numbers in the model, so the `v != ''` part of the keep test, which only a string value could fail, is not modelled.
- A `customData` that is JSON `null` makes `custom_data.get` raise `AttributeError`; this is not modelled.
- Cells that pandas reads as numbers, not text, are not modelled: a cell is text or missing (NaN). `str(cell_value)` on a number is therefore not modelled.
- The sign of a negative zero is not modelled.
- Extractor.ReadJsonFiles, Report.GenerateCsv, MemoryChart.AppendRowPoints: the nested loops of the source are split into helper methods (`AddFileBenchmarks`, `BuildRows`, `BuildRow`, `BuildCells`, `AppendMetricPoints`) with the same steps. An exception escapes the loops as a `Failure` result returned at once.
- The summary lines printed by `generate_csv` and the per-metric chart loops after `plot_data` is built are output only and are not modelled.
