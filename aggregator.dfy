/**
 * The aggregator of the report generator: reduces the records of one
 * operation to a summary, averaging each metric over the records in which it
 * is present and summing the iteration counts.
 */
module Aggregator {
  import opened Wrappers
  import opened Extractor

  /** A numeric column of a record: the five averaged metrics, and the
      iteration count as the total counts it (present and non-zero). */
  datatype Field =
    | ElapsedTime | HeapUsedAvg | HeapUsedStdDev | MarginOfError | RelativeMarginOfError
    | CountedIterations

  /** The metrics that are averaged, in the order of the metric list. */
  const Metrics: seq<Field> := [ElapsedTime, HeapUsedAvg, HeapUsedStdDev, MarginOfError, RelativeMarginOfError]

  predicate IsMetric(f: Field) {
    !f.CountedIterations?
  }

  /** The value of field `f` of a record that the aggregation takes into
      account: a metric when it is not None; the iteration count when it is
      truthy, that is present and non-zero. */
  function ValueOf(r: MetricRecord, f: Field): Option<real> {
    match f
    case ElapsedTime => r.elapsedTime
    case HeapUsedAvg => r.heapUsedAvg
    case HeapUsedStdDev => r.heapUsedStdDev
    case MarginOfError => r.marginOfError
    case RelativeMarginOfError => r.relativeMarginOfError
    case CountedIterations =>
      if r.iterations.Some? && r.iterations.value != 0.0 then r.iterations else None
  }

  /** A record's own contribution to a field: one value or none. */
  function Own(r: MetricRecord, f: Field): seq<real> {
    if ValueOf(r, f).Some? then [ValueOf(r, f).value] else []
  }

  /** The values of field `f` that the records contribute, in order. */
  function Present(rs: seq<MetricRecord>, f: Field): seq<real> {
    if rs == [] then [] else Own(rs[0], f) + Present(rs[1..], f)
  }

  /** Python's `sum` over reals. */
  function Sum(xs: seq<real>): real {
    if xs == [] then 0.0 else xs[0] + Sum(xs[1..])
  }

  /** The mean of metric `f` over the records in which it is present. */
  function Mean(rs: seq<MetricRecord>, f: Field): Option<real> {
    var values := Present(rs, f);
    if values == [] then None else Some(Sum(values) / |values| as real)
  }

  /** The total of the counted iterations, kept only when positive. */
  function TotalIterations(rs: seq<MetricRecord>): Option<real> {
    var total := Sum(Present(rs, CountedIterations));
    if total > 0.0 then Some(total) else None
  }

  /** The aggregate of one operation's records. */
  datatype Summary = Summary(
    elapsedTime: Option<real>,
    heapUsedAvg: Option<real>,
    heapUsedStdDev: Option<real>,
    marginOfError: Option<real>,
    relativeMarginOfError: Option<real>,
    totalRuns: nat,
    totalIterations: Option<real>)
  {
    /** The summary's value for a metric. */
    function Metric(f: Field): Option<real>
      requires IsMetric(f)
    {
      match f
      case ElapsedTime => elapsedTime
      case HeapUsedAvg => heapUsedAvg
      case HeapUsedStdDev => heapUsedStdDev
      case MarginOfError => marginOfError
      case RelativeMarginOfError => relativeMarginOfError
    }
  }

  /** `aggregate_data`: nothing for no records; otherwise each metric's mean
      over its own present values, the run count and the iteration total. */
  function Aggregate(rs: seq<MetricRecord>): (r: Option<Summary>)
    ensures r.None? <==> rs == []
    ensures r.Some? ==> r.value.totalRuns == |rs|
    ensures r.Some? ==> forall f :: IsMetric(f) ==> r.value.Metric(f) == Mean(rs, f)
    ensures r.Some? ==> r.value.totalIterations == TotalIterations(rs)
  {
    if rs == [] then None
    else Some(Summary(
      Mean(rs, ElapsedTime), Mean(rs, HeapUsedAvg), Mean(rs, HeapUsedStdDev),
      Mean(rs, MarginOfError), Mean(rs, RelativeMarginOfError),
      |rs|, TotalIterations(rs)))
  }

  lemma {:induction false} PresentAppend(a: seq<MetricRecord>, b: seq<MetricRecord>, f: Field)
    ensures Present(a + b, f) == Present(a, f) + Present(b, f)
  {
    if a == [] {
      assert a + b == b;
    } else {
      assert (a + b)[0] == a[0];
      assert (a + b)[1..] == a[1..] + b;
      PresentAppend(a[1..], b, f);
      assert Present(a + b, f) == Own(a[0], f) + (Present(a[1..], f) + Present(b, f));
    }
  }

  lemma {:induction false} SumAppend(xs: seq<real>, ys: seq<real>)
    ensures Sum(xs + ys) == Sum(xs) + Sum(ys)
  {
    if xs == [] {
      assert xs + ys == ys;
    } else {
      assert (xs + ys)[1..] == xs[1..] + ys;
      SumAppend(xs[1..], ys);
    }
  }

  lemma PresentCons(rs: seq<MetricRecord>, f: Field)
    requires rs != []
    ensures Sum(Present(rs, f)) == Sum(Own(rs[0], f)) + Sum(Present(rs[1..], f))
    ensures |Present(rs, f)| == |Own(rs[0], f)| + |Present(rs[1..], f)|
  {
    SumAppend(Own(rs[0], f), Present(rs[1..], f));
  }

  /** Taking the record at `i` out of `qs` takes exactly its own contribution
      out of the field's sum and count. */
  lemma PresentRemove(qs: seq<MetricRecord>, i: nat, f: Field)
    requires i < |qs|
    ensures Sum(Present(qs, f)) == Sum(Own(qs[i], f)) + Sum(Present(qs[..i] + qs[i + 1..], f))
    ensures |Present(qs, f)| == |Own(qs[i], f)| + |Present(qs[..i] + qs[i + 1..], f)|
  {
    var a, b := qs[..i], qs[i + 1..];
    assert qs == a + ([qs[i]] + b);
    PresentAppend(a, [qs[i]] + b, f);
    PresentCons([qs[i]] + b, f);
    assert ([qs[i]] + b)[1..] == b;
    PresentAppend(a, b, f);
    SumAppend(Present(a, f), Present([qs[i]] + b, f));
    SumAppend(Present(a, f), Present(b, f));
  }

  /** Reordering the records changes neither the sum nor the number of the
      values that a field contributes. */
  lemma {:induction false} PresentPermutation(rs: seq<MetricRecord>, qs: seq<MetricRecord>, f: Field)
    requires multiset(rs) == multiset(qs)
    ensures Sum(Present(rs, f)) == Sum(Present(qs, f))
    ensures |Present(rs, f)| == |Present(qs, f)|
    decreases |rs|
  {
    if rs == [] {
      assert |qs| == |multiset(qs)| == 0;
    } else {
      var i := MatchFirst(rs, qs);
      PresentPermutation(rs[1..], qs[..i] + qs[i + 1..], f);
      PresentCons(rs, f);
      PresentRemove(qs, i, f);
    }
  }

  /** Where the first element of `rs` sits in a permutation `qs` of it; the
      rests are permutations of each other. */
  lemma MatchFirst<T>(rs: seq<T>, qs: seq<T>) returns (i: nat)
    requires rs != [] && multiset(rs) == multiset(qs)
    ensures i < |qs| && qs[i] == rs[0]
    ensures multiset(rs[1..]) == multiset(qs[..i] + qs[i + 1..])
  {
    assert rs[0] in multiset(qs);
    i :| 0 <= i < |qs| && qs[i] == rs[0];
    RemoveAt(qs, i);
    assert rs == [rs[0]] + rs[1..];
    assert multiset(rs) == multiset{rs[0]} + multiset(rs[1..]);
  }

  lemma RemoveAt<T>(xs: seq<T>, i: nat)
    requires i < |xs|
    ensures multiset(xs[..i] + xs[i + 1..]) == multiset(xs) - multiset{xs[i]}
  {
    assert xs == xs[..i] + [xs[i]] + xs[i + 1..];
  }

  /** The aggregate does not depend on the order of the records. */
  lemma AggregatePermutation(rs: seq<MetricRecord>, qs: seq<MetricRecord>)
    requires multiset(rs) == multiset(qs)
    ensures Aggregate(rs) == Aggregate(qs)
  {
    assert |rs| == |multiset(rs)| == |multiset(qs)| == |qs|;
    forall f | true
      ensures Mean(rs, f) == Mean(qs, f)
    {
      PresentPermutation(rs, qs, f);
    }
    PresentPermutation(rs, qs, CountedIterations);
  }

  /** A metric's mean is absent exactly when no record has the metric. */
  lemma {:induction false} MeanAbsent(rs: seq<MetricRecord>, f: Field)
    ensures Mean(rs, f).None? <==> forall k :: 0 <= k < |rs| ==> ValueOf(rs[k], f).None?
  {
    if rs != [] {
      MeanAbsent(rs[1..], f);
      assert forall k :: 0 < k < |rs| ==> rs[k] == rs[1..][k - 1];
    }
  }

  lemma {:induction false} SumBounds(xs: seq<real>, lo: real, hi: real)
    requires forall k :: 0 <= k < |xs| ==> lo <= xs[k] <= hi
    ensures |xs| as real * lo <= Sum(xs) <= |xs| as real * hi
  {
    if xs != [] {
      SumBounds(xs[1..], lo, hi);
    }
  }

  lemma {:induction false} PresentWithin(rs: seq<MetricRecord>, f: Field, lo: real, hi: real)
    requires forall k :: 0 <= k < |rs| && ValueOf(rs[k], f).Some? ==> lo <= ValueOf(rs[k], f).value <= hi
    ensures forall k :: 0 <= k < |Present(rs, f)| ==> lo <= Present(rs, f)[k] <= hi
  {
    if rs != [] {
      assert forall k :: 0 < k < |rs| ==> rs[k] == rs[1..][k - 1];
      PresentWithin(rs[1..], f, lo, hi);
    }
  }

  /** A metric's mean lies between any bounds of the values it averages. */
  lemma MeanBounds(rs: seq<MetricRecord>, f: Field, lo: real, hi: real)
    requires forall k :: 0 <= k < |rs| && ValueOf(rs[k], f).Some? ==> lo <= ValueOf(rs[k], f).value <= hi
    requires Mean(rs, f).Some?
    ensures lo <= Mean(rs, f).value <= hi
  {
    var values := Present(rs, f);
    PresentWithin(rs, f, lo, hi);
    SumBounds(values, lo, hi);
    DivideBounds(Sum(values), |values| as real, lo, hi);
  }

  lemma DivideBounds(x: real, n: real, lo: real, hi: real)
    requires n > 0.0 && n * lo <= x <= n * hi
    ensures lo <= x / n <= hi
  {
    assert x / n - lo == (x - n * lo) / n;
    assert hi - x / n == (n * hi - x) / n;
  }

  /** Each metric's mean depends on that metric alone: records that agree on
      it give the same mean, however their other fields are filled. */
  lemma {:induction false} MeanOwnField(rs: seq<MetricRecord>, qs: seq<MetricRecord>, f: Field)
    requires |rs| == |qs| && forall k :: 0 <= k < |rs| ==> ValueOf(rs[k], f) == ValueOf(qs[k], f)
    ensures Mean(rs, f) == Mean(qs, f)
  {
    PresentOwnField(rs, qs, f);
  }

  lemma {:induction false} PresentOwnField(rs: seq<MetricRecord>, qs: seq<MetricRecord>, f: Field)
    requires |rs| == |qs| && forall k :: 0 <= k < |rs| ==> ValueOf(rs[k], f) == ValueOf(qs[k], f)
    ensures Present(rs, f) == Present(qs, f)
  {
    if rs != [] {
      assert forall k :: 0 < k < |rs| ==> rs[k] == rs[1..][k - 1] && qs[k] == qs[1..][k - 1];
      PresentOwnField(rs[1..], qs[1..], f);
    }
  }

  /** The iterations of each record, when present, zeros included. */
  function AllIterations(rs: seq<MetricRecord>): seq<real> {
    if rs == [] then []
    else (if rs[0].iterations.Some? then [rs[0].iterations.value] else []) + AllIterations(rs[1..])
  }

  lemma {:induction false} ZerosAddNothing(rs: seq<MetricRecord>)
    ensures Sum(Present(rs, CountedIterations)) == Sum(AllIterations(rs))
  {
    if rs != [] {
      ZerosAddNothing(rs[1..]);
      var head := if rs[0].iterations.Some? then [rs[0].iterations.value] else [];
      SumAppend(head, AllIterations(rs[1..]));
      SumAppend(if ValueOf(rs[0], CountedIterations).Some? then [ValueOf(rs[0], CountedIterations).value] else [],
                Present(rs[1..], CountedIterations));
    }
  }

  /** The iteration total is the sum of every present iteration count (zeros
      add nothing), and it is reported only when that sum is positive. */
  lemma IterationTotal(rs: seq<MetricRecord>)
    ensures TotalIterations(rs).Some? <==> Sum(AllIterations(rs)) > 0.0
    ensures TotalIterations(rs).Some? ==> TotalIterations(rs).value == Sum(AllIterations(rs))
  {
    ZerosAddNothing(rs);
  }

  /** The mean kept per metric by the accumulator: a running sum and a count. */
  function Accumulate(rs: seq<MetricRecord>, f: Field, sum: real, count: nat): Option<real> {
    if rs == [] then (if count == 0 then None else Some(sum / count as real))
    else if ValueOf(rs[0], f).Some? then Accumulate(rs[1..], f, sum + ValueOf(rs[0], f).value, count + 1)
    else Accumulate(rs[1..], f, sum, count)
  }

  lemma {:induction false} AccumulateFrom(rs: seq<MetricRecord>, f: Field, sum: real, count: nat)
    ensures Accumulate(rs, f, sum, count) ==
      (if count + |Present(rs, f)| == 0 then None
       else Some((sum + Sum(Present(rs, f))) / (count + |Present(rs, f)|) as real))
  {
    if rs != [] {
      PresentCons(rs, f);
      var p := Present(rs[1..], f);
      if ValueOf(rs[0], f).Some? {
        var v := ValueOf(rs[0], f).value;
        AccumulateFrom(rs[1..], f, sum + v, count + 1);
        assert Own(rs[0], f) == [v];
        assert sum + Sum(Present(rs, f)) == (sum + v) + Sum(p);
        assert count + |Present(rs, f)| == (count + 1) + |p|;
      } else {
        AccumulateFrom(rs[1..], f, sum, count);
        assert Own(rs[0], f) == [];
      }
    }
  }

  /** The mean agrees with a per-metric accumulator of sum and count run
      over the records, each metric with its own denominator. */
  lemma MeanIsAccumulated(rs: seq<MetricRecord>, f: Field)
    ensures Mean(rs, f) == Accumulate(rs, f, 0.0, 0)
  {
    AccumulateFrom(rs, f, 0.0, 0);
  }

  /** Two runs, elapsed 10 and 20, heap average missing in the first and 100
      in the second: elapsed averages over both, the heap over one. */
  lemma RaggedExample()
    ensures var rs := [MetricRecord(Some(10.0), None, None, None, None, None, "a"),
                       MetricRecord(Some(20.0), Some(100.0), None, None, None, None, "b")];
            Aggregate(rs) == Some(Summary(Some(15.0), Some(100.0), None, None, None, 2, None))
  {
    var rs := [MetricRecord(Some(10.0), None, None, None, None, None, "a"),
               MetricRecord(Some(20.0), Some(100.0), None, None, None, None, "b")];
    RaggedPresent(rs);
    assert Sum([10.0, 20.0]) == 30.0;
    assert Mean(rs, ElapsedTime) == Some(15.0);
    assert Mean(rs, HeapUsedAvg) == Some(100.0);
    assert Mean(rs, HeapUsedStdDev) == None;
    assert Mean(rs, MarginOfError) == None;
    assert Mean(rs, RelativeMarginOfError) == None;
    assert TotalIterations(rs) == None;
  }

  lemma RaggedPresent(rs: seq<MetricRecord>)
    requires rs == [MetricRecord(Some(10.0), None, None, None, None, None, "a"),
                    MetricRecord(Some(20.0), Some(100.0), None, None, None, None, "b")]
    ensures Present(rs, ElapsedTime) == [10.0, 20.0] && Present(rs, HeapUsedAvg) == [100.0]
    ensures Present(rs, HeapUsedStdDev) == [] && Present(rs, MarginOfError) == []
    ensures Present(rs, RelativeMarginOfError) == [] && Present(rs, CountedIterations) == []
  {
    forall f: Field
      ensures Present(rs, f) == Own(rs[0], f) + Own(rs[1], f)
    {
      PresentPair(rs, f);
    }
  }

  lemma PresentPair(rs: seq<MetricRecord>, f: Field)
    requires |rs| == 2
    ensures Present(rs, f) == Own(rs[0], f) + Own(rs[1], f)
  {
    assert rs[1..][1..] == [];
    assert Present(rs[1..], f) == Own(rs[1], f) + [];
  }
}
