/**
 * The record extractor of the report generator: walks the parsed result
 * documents of one implementation and appends one metric record per usable
 * benchmark entry to the list of its canonical operation.
 */
module Extractor {
  import opened Wrappers
  import Classifier

  /** One entry of a document's `benchmarks` list: its name (absent when the
      key is missing), `elapsedSeconds`, and the numeric entries of
      `customData` (an absent `customData` is the empty map). */
  datatype Benchmark = Benchmark(
    benchmarkName: Option<string>,
    elapsedSeconds: Option<real>,
    customData: map<string, real>)

  /** A decoded result document: `benchmarks` is absent when the key is
      missing or null. */
  datatype Document = Document(benchmarks: Option<seq<Benchmark>>)

  /** A result file met by the directory scan: its name, and its decoded
      content, absent when reading or decoding it failed. */
  datatype ResultFile = ResultFile(fileName: string, content: Option<Document>)

  /** The record kept for one benchmark run. */
  datatype MetricRecord = MetricRecord(
    elapsedTime: Option<real>,
    heapUsedAvg: Option<real>,
    heapUsedStdDev: Option<real>,
    marginOfError: Option<real>,
    relativeMarginOfError: Option<real>,
    iterations: Option<real>,
    sourceFile: string)

  /** The records of one implementation, grouped by canonical operation. */
  type Groups = map<string, seq<MetricRecord>>

  /** The exception that escapes the scan: a benchmark without `benchmarkName`
      raises `KeyError`, which the per-file handler does not catch. */
  datatype ReadError = KeyError(key: string)

  /** What a scan produces: the groups and the number of files with benchmarks. */
  datatype Extraction = Extraction(data: Groups, filesProcessed: nat)

  /** The keys of `customData` that the extractor reads. */
  const HeapUsedAvgKey: string := "Heap Used Avg"
  const HeapUsedStdDevKey: string := "Heap Used StdDev"
  const MarginOfErrorKey: string := "Margin of Error"
  const RelativeMarginOfErrorKey: string := "Relative Margin of Error"
  const IterationsKey: string := "Iterations"
  const CustomDataKeys: set<string> :=
    {HeapUsedAvgKey, HeapUsedStdDevKey, MarginOfErrorKey, RelativeMarginOfErrorKey, IterationsKey}

  /** `dict.get`: the value under `k`, absent when there is none. */
  function Get(m: map<string, real>, k: string): Option<real> {
    if k in m then Some(m[k]) else None
  }

  /** The list under an operation of the grouping, empty when it has none. */
  function Records(data: Groups, operation: string): seq<MetricRecord> {
    if operation in data then data[operation] else []
  }

  /** The record built for benchmark `b` of file `fileName`. */
  function RecordOf(b: Benchmark, fileName: string): MetricRecord {
    MetricRecord(
      b.elapsedSeconds,
      Get(b.customData, HeapUsedAvgKey),
      Get(b.customData, HeapUsedStdDevKey),
      Get(b.customData, MarginOfErrorKey),
      Get(b.customData, RelativeMarginOfErrorKey),
      Get(b.customData, IterationsKey),
      fileName)
  }

  /** Some numeric field of the record, the source file aside, is present. */
  predicate HasData(r: MetricRecord) {
    r.elapsedTime.Some? || r.heapUsedAvg.Some? || r.heapUsedStdDev.Some?
    || r.marginOfError.Some? || r.relativeMarginOfError.Some? || r.iterations.Some?
  }

  /** A benchmark is kept exactly when it has `elapsedSeconds` or one of the
      five `customData` keys; each field is what `.get` gives, so a missing key
      or `elapsedSeconds` is absent in the record, never zero. */
  lemma KeptIffSomeField(b: Benchmark, fileName: string)
    ensures HasData(RecordOf(b, fileName)) <==>
      b.elapsedSeconds.Some? || exists k :: k in CustomDataKeys && k in b.customData
    ensures RecordOf(b, fileName).elapsedTime == b.elapsedSeconds
    ensures RecordOf(b, fileName).heapUsedAvg.None? <==> HeapUsedAvgKey !in b.customData
    ensures RecordOf(b, fileName).heapUsedStdDev.None? <==> HeapUsedStdDevKey !in b.customData
    ensures RecordOf(b, fileName).marginOfError.None? <==> MarginOfErrorKey !in b.customData
    ensures RecordOf(b, fileName).relativeMarginOfError.None? <==> RelativeMarginOfErrorKey !in b.customData
    ensures RecordOf(b, fileName).iterations.None? <==> IterationsKey !in b.customData
    ensures RecordOf(b, fileName).sourceFile == fileName
  {
    if exists k :: k in CustomDataKeys && k in b.customData {
      var k :| k in CustomDataKeys && k in b.customData;
      assert k == HeapUsedAvgKey || k == HeapUsedStdDevKey || k == MarginOfErrorKey
          || k == RelativeMarginOfErrorKey || k == IterationsKey;
    }
  }

  /** The benchmark list that a file contributes: none for an unreadable
      file, a missing or null `benchmarks` entry, or an empty one. */
  function BenchmarksOf(f: ResultFile): seq<Benchmark> {
    match f.content
    case None => []
    case Some(d) =>
      match d.benchmarks
      case None => []
      case Some(bs) => bs
  }

  /** The step of the inner loop for one benchmark. */
  function AddBenchmark(data: Groups, fileName: string, b: Benchmark): Result<Groups, ReadError> {
    if b.benchmarkName.None? then Failure(KeyError("benchmarkName"))
    else
      var operation := Classifier.Classify(b.benchmarkName.value);
      var record := RecordOf(b, fileName);
      if HasData(record) then Success(data[operation := Records(data, operation) + [record]])
      else Success(data)
  }

  /** The inner loop over the benchmarks of one file. */
  function AddBenchmarks(data: Groups, fileName: string, bs: seq<Benchmark>): Result<Groups, ReadError> {
    if bs == [] then Success(data)
    else
      var before :- AddBenchmarks(data, fileName, bs[..|bs| - 1]);
      AddBenchmark(before, fileName, bs[|bs| - 1])
  }

  /** The outer loop over the files of one directory. */
  function ReadAll(files: seq<ResultFile>): (r: Result<Extraction, ReadError>)
    ensures r.Success? ==> r.value.filesProcessed <= |files|
  {
    if files == [] then Success(Extraction(map[], 0))
    else
      var before :- ReadAll(files[..|files| - 1]);
      var f := files[|files| - 1];
      var bs := BenchmarksOf(f);
      if bs == [] then Success(before)
      else
        var data :- AddBenchmarks(before.data, f.fileName, bs);
        Success(Extraction(data, before.filesProcessed + 1))
  }

  /** Once the inner loop has raised, the rest of the file changes nothing. */
  lemma {:induction false} AddBenchmarksFailureSticks(data: Groups, fileName: string, bs: seq<Benchmark>, j: nat)
    requires j <= |bs| && AddBenchmarks(data, fileName, bs[..j]).Failure?
    ensures AddBenchmarks(data, fileName, bs) == AddBenchmarks(data, fileName, bs[..j])
    decreases |bs| - j
  {
    if j < |bs| {
      assert bs[..j + 1][..j] == bs[..j];
      AddBenchmarksFailureSticks(data, fileName, bs, j + 1);
    } else {
      assert bs[..j] == bs;
    }
  }

  /** Once the scan has raised, the remaining files change nothing. */
  lemma {:induction false} ReadAllFailureSticks(files: seq<ResultFile>, i: nat)
    requires i <= |files| && ReadAll(files[..i]).Failure?
    ensures ReadAll(files) == ReadAll(files[..i])
    decreases |files| - i
  {
    if i < |files| {
      assert files[..i + 1][..i] == files[..i];
      ReadAllFailureSticks(files, i + 1);
    } else {
      assert files[..i] == files;
    }
  }

  /** `read_json_files` on already decoded files: the scan with its nested
      loops, `data` a `defaultdict(list)` appended to in place. */
  method ReadJsonFiles(files: seq<ResultFile>) returns (r: Result<Extraction, ReadError>)
    ensures r == ReadAll(files)
  {
    var data: Groups := map[];
    var filesProcessed: nat := 0;
    var i := 0;
    while i < |files|
      invariant 0 <= i <= |files|
      invariant ReadAll(files[..i]) == Success(Extraction(data, filesProcessed))
    {
      var f := files[i];
      assert files[..i + 1][..i] == files[..i] && files[..i + 1][i] == f;
      var benchmarks := BenchmarksOf(f);
      if benchmarks != [] {
        filesProcessed := filesProcessed + 1;
        var added := AddFileBenchmarks(data, f.fileName, benchmarks);
        if added.Failure? {
          ReadAllFailureSticks(files, i + 1);
          return Failure(added.error);
        }
        data := added.value;
      }
      i := i + 1;
    }
    assert files[..i] == files;
    r := Success(Extraction(data, filesProcessed));
  }

  /** The inner loop of `read_json_files` over the benchmarks of one file,
      raising `KeyError` at the first benchmark without a name. */
  method AddFileBenchmarks(start: Groups, fileName: string, benchmarks: seq<Benchmark>) returns (r: Result<Groups, ReadError>)
    ensures r == AddBenchmarks(start, fileName, benchmarks)
  {
    var data := start;
    var j := 0;
    while j < |benchmarks|
      invariant 0 <= j <= |benchmarks|
      invariant AddBenchmarks(start, fileName, benchmarks[..j]) == Success(data)
    {
      var b := benchmarks[j];
      assert benchmarks[..j + 1][..j] == benchmarks[..j] && benchmarks[..j + 1][j] == b;
      if b.benchmarkName.None? {
        AddBenchmarksFailureSticks(start, fileName, benchmarks, j + 1);
        return Failure(KeyError("benchmarkName"));
      }
      var operation := Classifier.Classify(b.benchmarkName.value);
      var record := RecordOf(b, fileName);
      if HasData(record) {
        data := data[operation := Records(data, operation) + [record]];
      }
      j := j + 1;
    }
    assert benchmarks[..j] == benchmarks;
    r := Success(data);
  }

  // The grouping as a reference definition: the flat list of kept
  // (operation, record) pairs in scan order, filtered by operation.

  /** An operation paired with one of its records. */
  type Entry = (string, MetricRecord)

  /** The pair that benchmark `b` contributes to the flat list, if any. */
  function EntryOf(fileName: string, b: Benchmark): seq<Entry> {
    if b.benchmarkName.Some? && HasData(RecordOf(b, fileName))
    then [(Classifier.Classify(b.benchmarkName.value), RecordOf(b, fileName))]
    else []
  }

  /** The pairs that a list of benchmarks contributes, in order. */
  function EntriesOf(fileName: string, bs: seq<Benchmark>): seq<Entry> {
    if bs == [] then []
    else EntriesOf(fileName, bs[..|bs| - 1]) + EntryOf(fileName, bs[|bs| - 1])
  }

  /** The pairs that all files contribute, file after file. */
  function Entries(files: seq<ResultFile>): seq<Entry> {
    if files == [] then []
    else Entries(files[..|files| - 1]) + EntriesOf(files[|files| - 1].fileName, BenchmarksOf(files[|files| - 1]))
  }

  /** The records of `es` filed under `operation`, in order. */
  function Filter(es: seq<Entry>, operation: string): seq<MetricRecord> {
    if es == [] then []
    else Filter(es[..|es| - 1], operation) + (if es[|es| - 1].0 == operation then [es[|es| - 1].1] else [])
  }

  /** `data` holds exactly the operations of `es`, each with its records in order. */
  ghost predicate GroupedAs(data: Groups, es: seq<Entry>) {
    forall operation :: (operation in data <==> Filter(es, operation) != [])
                        && (operation in data ==> data[operation] == Filter(es, operation))
  }

  lemma FilterAppend(es: seq<Entry>, more: seq<Entry>, operation: string)
    requires |more| <= 1
    ensures Filter(es + more, operation) ==
      Filter(es, operation) + (if more != [] && more[0].0 == operation then [more[0].1] else [])
  {
    if more != [] {
      assert (es + more)[..|es + more| - 1] == es;
    } else {
      assert es + more == es;
    }
  }

  /** Appending a record under its operation keeps the grouping in step
      with the flat list extended by that pair. */
  lemma GroupedInsert(data: Groups, es: seq<Entry>, operation: string, record: MetricRecord)
    requires GroupedAs(data, es)
    ensures GroupedAs(data[operation := Records(data, operation) + [record]], es + [(operation, record)])
  {
    forall op {
      FilterAppend(es, [(operation, record)], op);
    }
  }

  lemma AddBenchmarkGroups(data: Groups, es: seq<Entry>, fileName: string, b: Benchmark)
    requires GroupedAs(data, es) && AddBenchmark(data, fileName, b).Success?
    ensures GroupedAs(AddBenchmark(data, fileName, b).value, es + EntryOf(fileName, b))
  {
    var operation := Classifier.Classify(b.benchmarkName.value);
    var record := RecordOf(b, fileName);
    var next := AddBenchmark(data, fileName, b).value;
    if HasData(record) {
      assert EntryOf(fileName, b) == [(operation, record)];
      assert next == data[operation := Records(data, operation) + [record]];
      GroupedInsert(data, es, operation, record);
    } else {
      assert EntryOf(fileName, b) == [] && next == data;
      assert es + [] == es;
    }
  }

  lemma {:induction false} AddBenchmarksGroups(data: Groups, es: seq<Entry>, fileName: string, bs: seq<Benchmark>)
    requires GroupedAs(data, es) && AddBenchmarks(data, fileName, bs).Success?
    ensures GroupedAs(AddBenchmarks(data, fileName, bs).value, es + EntriesOf(fileName, bs))
  {
    if bs == [] {
      assert es + EntriesOf(fileName, bs) == es;
    } else {
      var init := bs[..|bs| - 1];
      AddBenchmarksGroups(data, es, fileName, init);
      var before := AddBenchmarks(data, fileName, init).value;
      AddBenchmarkGroups(before, es + EntriesOf(fileName, init), fileName, bs[|bs| - 1]);
      assert es + EntriesOf(fileName, bs) == (es + EntriesOf(fileName, init)) + EntryOf(fileName, bs[|bs| - 1]);
    }
  }

  /** The scan groups the flat list of kept records: an operation is a key
      exactly when some kept benchmark is classified under it, and its list
      holds those records in scan order. No key has an empty list. */
  lemma {:induction false} ReadAllGroups(files: seq<ResultFile>)
    requires ReadAll(files).Success?
    ensures GroupedAs(ReadAll(files).value.data, Entries(files))
    ensures forall operation :: operation in ReadAll(files).value.data ==> ReadAll(files).value.data[operation] != []
  {
    if files == [] {
      assert forall operation :: Filter([], operation) == [];
    } else {
      var init := files[..|files| - 1];
      var f := files[|files| - 1];
      ReadAllGroups(init);
      var before := ReadAll(init).value;
      if BenchmarksOf(f) == [] {
        assert EntriesOf(f.fileName, BenchmarksOf(f)) == [];
        assert Entries(files) == Entries(init) + [] == Entries(init);
        assert ReadAll(files).value == before;
      } else {
        AddBenchmarksGroups(before.data, Entries(init), f.fileName, BenchmarksOf(f));
        assert ReadAll(files).value.data == AddBenchmarks(before.data, f.fileName, BenchmarksOf(f)).value;
      }
    }
  }

  /** Some file with benchmarks has one without `benchmarkName`. */
  ghost predicate HasUnnamed(files: seq<ResultFile>) {
    exists k, j :: 0 <= k < |files| && 0 <= j < |BenchmarksOf(files[k])| && BenchmarksOf(files[k])[j].benchmarkName.None?
  }

  lemma {:induction false} AddBenchmarksFails(data: Groups, fileName: string, bs: seq<Benchmark>)
    ensures AddBenchmarks(data, fileName, bs).Failure? <==> exists j :: 0 <= j < |bs| && bs[j].benchmarkName.None?
    ensures AddBenchmarks(data, fileName, bs).Failure? ==> AddBenchmarks(data, fileName, bs).error == KeyError("benchmarkName")
  {
    if bs != [] {
      var init := bs[..|bs| - 1];
      AddBenchmarksFails(data, fileName, init);
      assert forall j :: 0 <= j < |init| ==> init[j] == bs[j];
      if AddBenchmarks(data, fileName, init).Failure? {
        var j :| 0 <= j < |init| && init[j].benchmarkName.None?;
        assert bs[j].benchmarkName.None?;
      }
    }
  }

  /** The scan raises exactly when some file with benchmarks has one without
      `benchmarkName`, and then the error is the `KeyError` for that key. */
  lemma {:induction false} ReadAllFails(files: seq<ResultFile>)
    ensures ReadAll(files).Failure? <==> HasUnnamed(files)
    ensures ReadAll(files).Failure? ==> ReadAll(files).error == KeyError("benchmarkName")
  {
    if files != [] {
      var init := files[..|files| - 1];
      var f := files[|files| - 1];
      ReadAllFails(init);
      assert forall k :: 0 <= k < |init| ==> init[k] == files[k];
      if ReadAll(init).Failure? {
        var k, j :| 0 <= k < |init| && 0 <= j < |BenchmarksOf(init[k])| && BenchmarksOf(init[k])[j].benchmarkName.None?;
        assert BenchmarksOf(files[k])[j].benchmarkName.None?;
      } else {
        var before := ReadAll(init).value;
        AddBenchmarksFails(before.data, f.fileName, BenchmarksOf(f));
        if HasUnnamed(files) {
          var k, j :| 0 <= k < |files| && 0 <= j < |BenchmarksOf(files[k])| && BenchmarksOf(files[k])[j].benchmarkName.None?;
          if k < |init| {
            assert BenchmarksOf(init[k])[j].benchmarkName.None?;
          }
        }
        if AddBenchmarks(before.data, f.fileName, BenchmarksOf(f)).Failure? {
          var j :| 0 <= j < |BenchmarksOf(f)| && BenchmarksOf(f)[j].benchmarkName.None?;
          assert BenchmarksOf(files[|files| - 1])[j].benchmarkName.None?;
        }
      }
    }
  }

  /** A file that is unreadable or has no benchmarks changes neither the
      groups nor the count of processed files. */
  lemma FileWithoutBenchmarks(files: seq<ResultFile>, f: ResultFile)
    requires BenchmarksOf(f) == []
    ensures ReadAll(files + [f]) == ReadAll(files)
  {
    assert (files + [f])[..|files|] == files;
  }

  /** A file with benchmarks is counted once, whatever it contributes. */
  lemma FileWithBenchmarksCounted(files: seq<ResultFile>, f: ResultFile)
    requires BenchmarksOf(f) != [] && ReadAll(files + [f]).Success?
    ensures ReadAll(files).Success?
    ensures ReadAll(files + [f]).value.filesProcessed == ReadAll(files).value.filesProcessed + 1
  {
    assert (files + [f])[..|files|] == files;
  }
}
