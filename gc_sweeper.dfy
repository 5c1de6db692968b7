/**
 * module6/GCOptimizationSweeper.java without its threads: one burst of
 * `concurrency` dot-product tasks, each allocating 10 KB, measured as
 * requests per second, P99 task latency in microseconds, GigaOps and peak
 * heap use; `measure` repeats the burst five times and `calcStats`
 * summarises one metric over those runs. What the clocks, the heap and the
 * tasks report during a burst is an input, a `BurstObservation`.
 */
module GcSweeper {
  import opened JavaInt
  import opened Statistics
  import Percentile
  import Rates
  import SweepOrder

  const Iterations: nat := 5
  const MaxDataSize: nat := 200_000
  const ConcurrencySteps: seq<int> := [10_000, 50_000]
  const DataSteps: seq<int> := [1_000]

  datatype RunMetrics = RunMetrics(reqPerSec: real, p99LatencyUs: real, gigaOps: real, peakMemoryMb: real)

  /** `System.nanoTime()` at the start and at the end of one task. */
  datatype TaskTiming = TaskTiming(t0: int, t1: int)

  /**
   * What one burst observed: its wall-clock duration in nanoseconds, the
   * timing of every task in completion order, and the used-heap readings the
   * memory tracker took before it was stopped.
   */
  datatype BurstObservation = BurstObservation(durationNs: int, tasks: seq<TaskTiming>, heapReadings: seq<int>)

  /** `(System.nanoTime() - t0) / 1000`: a task's latency in whole microseconds, truncated. */
  function LatencyUs(t: TaskTiming): (us: int)
    ensures Abs(us) * 1000 <= Abs(t.t1 - t.t0) < (Abs(us) + 1) * 1000
    ensures t.t1 >= t.t0 ==> us >= 0
  {
    JavaDiv(t.t1 - t.t0, 1000)
  }

  function Latencies(tasks: seq<TaskTiming>): (r: seq<int>)
    ensures |r| == |tasks|
    ensures forall i :: 0 <= i < |tasks| ==> r[i] == LatencyUs(tasks[i])
  {
    seq(|tasks|, i requires 0 <= i < |tasks| => LatencyUs(tasks[i]))
  }

  /** The highest of `p` and the readings: a running peak that starts at `p`. */
  function PeakAfter(p: int, readings: seq<int>): (q: int)
    ensures p <= q
    ensures q == p || q in readings
  {
    if readings == [] then p
    else
      var q := PeakAfter(p, readings[..|readings| - 1]);
      if readings[|readings| - 1] > q then readings[|readings| - 1] else q
  }

  /** The peak is no lower than its start or than any reading. */
  lemma {:induction false} PeakAfterBounds(p: int, readings: seq<int>)
    ensures PeakAfter(p, readings) >= p
    ensures forall i :: 0 <= i < |readings| ==> PeakAfter(p, readings) >= readings[i]
  {
    if readings != [] {
      PeakAfterBounds(p, readings[..|readings| - 1]);
    }
  }

  /** The peak is a value that was actually seen: the start or one of the readings. */
  lemma {:induction false} PeakAfterAttained(p: int, readings: seq<int>)
    ensures PeakAfter(p, readings) == p || PeakAfter(p, readings) in readings
  {
    if readings != [] {
      PeakAfterAttained(p, readings[..|readings| - 1]);
    }
  }

  /**
   * The tracker thread's loop: while it is running, read the used heap and
   * raise `peakMemoryBytes` when the reading is higher.
   */
  class MemoryTracker {
    var running: bool
    var peakMemoryBytes: int

    constructor ()
      ensures running && peakMemoryBytes == 0
    {
      running := true;
      peakMemoryBytes := 0;
    }

    /** One iteration of `run`: the peak never decreases and covers this reading. */
    method Poll(used: int)
      modifies this
      ensures peakMemoryBytes == PeakAfter(old(peakMemoryBytes), [used])
      ensures peakMemoryBytes >= old(peakMemoryBytes) && peakMemoryBytes >= used
      ensures running == old(running)
    {
      if used > peakMemoryBytes {
        peakMemoryBytes := used;
      }
    }

    /** `run` over the readings taken before `stopTracking`; nothing happens once stopped. */
    method Run(readings: seq<int>)
      modifies this
      ensures old(running) ==> peakMemoryBytes == PeakAfter(old(peakMemoryBytes), readings)
      ensures !old(running) ==> peakMemoryBytes == old(peakMemoryBytes)
      ensures running == old(running)
    {
      var i := 0;
      while running && i < |readings|
        invariant 0 <= i <= |readings|
        invariant running == old(running)
        invariant !running ==> i == 0
        invariant peakMemoryBytes == PeakAfter(old(peakMemoryBytes), readings[..i])
      {
        assert readings[..i + 1][..i] == readings[..i];
        Poll(readings[i]);
        i := i + 1;
      }
      assert running ==> readings[..i] == readings;
    }

    method StopTracking()
      modifies this
      ensures !running && peakMemoryBytes == old(peakMemoryBytes)
    {
      running := false;
    }

    /** `getPeakMemoryMb`: the peak in mebibytes. */
    function PeakMemoryMb(): (mb: real)
      reads this
      ensures mb * Rates.BytesPerMb == peakMemoryBytes as real
    {
      Rates.BytesToMb(peakMemoryBytes)
    }
  }

  /** The metrics `runBurst` reports for what it observed. */
  function BurstMetrics(concurrency: int, dataSize: int, obs: BurstObservation): RunMetrics
    requires obs.durationNs > 0
  {
    var rps := Rates.Rate(concurrency, obs.durationNs);
    RunMetrics(
      rps,
      Percentile.P99(Latencies(obs.tasks)) as real,
      Rates.GigaOps(rps, dataSize),
      Rates.BytesToMb(PeakAfter(0, obs.heapReadings)))
  }

  /**
   * The rate of a burst times its duration in seconds is its request count,
   * and its GigaOps figure is two operations per element per request per
   * nanosecond.
   */
  lemma BurstThroughputMeaning(concurrency: int, dataSize: int, obs: BurstObservation)
    requires obs.durationNs > 0
    ensures BurstMetrics(concurrency, dataSize, obs).reqPerSec * (obs.durationNs as real / Rates.NanosPerSecond)
            == concurrency as real
    ensures BurstMetrics(concurrency, dataSize, obs).gigaOps * obs.durationNs as real
            == 2.0 * concurrency as real * dataSize as real
  {
    Rates.GigaOpsIsOpsPerNanosecond(concurrency, dataSize, obs.durationNs);
  }

  /** The reported P99 latency is 0 with no tasks, and otherwise the latency of one of them. */
  lemma BurstLatencyMeaning(concurrency: int, dataSize: int, obs: BurstObservation)
    requires obs.durationNs > 0
    ensures obs.tasks == [] ==> BurstMetrics(concurrency, dataSize, obs).p99LatencyUs == 0.0
    ensures obs.tasks != [] ==>
              (exists i :: 0 <= i < |obs.tasks|
                 && BurstMetrics(concurrency, dataSize, obs).p99LatencyUs == LatencyUs(obs.tasks[i]) as real)
  {
    var lat := Latencies(obs.tasks);
    if lat != [] {
      Percentile.P99IsSample(lat);
      var i :| 0 <= i < |lat| && lat[i] == Percentile.P99(lat);
      assert BurstMetrics(concurrency, dataSize, obs).p99LatencyUs == LatencyUs(obs.tasks[i]) as real;
    }
  }

  /** The reported peak memory is never negative and covers every heap reading of the burst. */
  lemma BurstMemoryMeaning(concurrency: int, dataSize: int, obs: BurstObservation)
    requires obs.durationNs > 0
    ensures BurstMetrics(concurrency, dataSize, obs).peakMemoryMb >= 0.0
    ensures forall i :: 0 <= i < |obs.heapReadings| ==>
              BurstMetrics(concurrency, dataSize, obs).peakMemoryMb * Rates.BytesPerMb >= obs.heapReadings[i] as real
  {
    PeakAfterBounds(0, obs.heapReadings);
  }

  /** `runBurst` after the executor has joined: stop the tracker and derive the metrics. */
  method RunBurst(concurrency: int, dataSize: int, obs: BurstObservation) returns (m: RunMetrics)
    requires obs.durationNs > 0
    ensures m == BurstMetrics(concurrency, dataSize, obs)
  {
    var tracker := new MemoryTracker();
    tracker.Run(obs.heapReadings);
    tracker.StopTracking();
    var peakMemoryMb := tracker.PeakMemoryMb();
    var rps := Rates.Rate(concurrency, obs.durationNs);
    var gigaOps := Rates.GigaOps(rps, dataSize);
    var sorted := Percentile.SortAsc(Latencies(obs.tasks));
    var p99 := if |sorted| == 0 then 0.0 else sorted[Percentile.P99Index(|sorted|)] as real;
    m := RunMetrics(rps, p99, gigaOps, peakMemoryMb);
  }

  /** `measure`: `Iterations` bursts one after another, each with its own observation. */
  method Measure(concurrency: int, dataSize: int, obs: seq<BurstObservation>) returns (results: seq<RunMetrics>)
    requires |obs| == Iterations
    requires forall i :: 0 <= i < |obs| ==> obs[i].durationNs > 0
    ensures |results| == Iterations
    ensures forall i :: 0 <= i < Iterations ==> results[i] == BurstMetrics(concurrency, dataSize, obs[i])
  {
    results := [];
    var i := 0;
    while i < Iterations
      invariant 0 <= i <= Iterations
      invariant |results| == i
      invariant forall k :: 0 <= k < i ==> results[k] == BurstMetrics(concurrency, dataSize, obs[k])
    {
      var m := RunBurst(concurrency, dataSize, obs[i]);
      results := results + [m];
      i := i + 1;
    }
  }

  /** The four method references `calcStats` is called with. */
  datatype Metric = ReqPerSec | P99LatencyUs | GigaOpsMetric | PeakMemoryMb

  function Select(metric: Metric, r: RunMetrics): real
  {
    match metric
    case ReqPerSec => r.reqPerSec
    case P99LatencyUs => r.p99LatencyUs
    case GigaOpsMetric => r.gigaOps
    case PeakMemoryMb => r.peakMemoryMb
  }

  function Column(runs: seq<RunMetrics>, metric: Metric): (xs: seq<real>)
    ensures |xs| == |runs|
    ensures forall i :: 0 <= i < |runs| ==> xs[i] == Select(metric, runs[i])
  {
    seq(|runs|, i requires 0 <= i < |runs| => Select(metric, runs[i]))
  }

  /** `calcStats`: mean and population variance of one metric over the runs. */
  function CalcStats(runs: seq<RunMetrics>, metric: Metric): (s: StatResult)
    requires |runs| > 0
    ensures s.variance >= 0.0
  {
    StatsOf(Column(runs, metric))
  }

  /**
   * The summary is the population statistic of the metric's values: the mean
   * lies within the observed range, and the spread is zero exactly when every
   * run reported the same value.
   */
  lemma CalcStatsMeaning(runs: seq<RunMetrics>, metric: Metric, lo: real, hi: real)
    requires |runs| > 0
    requires forall i :: 0 <= i < |runs| ==> lo <= Select(metric, runs[i]) <= hi
    ensures lo <= CalcStats(runs, metric).mean <= hi
    ensures CalcStats(runs, metric).variance == 0.0
            <==> forall i, j :: 0 <= i < |runs| && 0 <= j < |runs| ==> Select(metric, runs[i]) == Select(metric, runs[j])
  {
    var xs := Column(runs, metric);
    MeanBetween(xs, lo, hi);
    VarianceZeroIffAllEqual(xs);
    if AllEqual(xs) {
      forall i, j | 0 <= i < |runs| && 0 <= j < |runs|
        ensures Select(metric, runs[i]) == Select(metric, runs[j])
      {
        assert xs[i] == xs[j];
      }
    }
  }

  /** The four summaries of one configuration, for the legacy or the modern executor. */
  datatype Summary = Summary(rps: StatResult, latency: StatResult, gigaOps: StatResult, memory: StatResult)

  function Summarize(runs: seq<RunMetrics>): (s: Summary)
    requires |runs| > 0
    ensures s.rps.variance >= 0.0 && s.latency.variance >= 0.0
    ensures s.gigaOps.variance >= 0.0 && s.memory.variance >= 0.0
  {
    Summary(CalcStats(runs, ReqPerSec), CalcStats(runs, P99LatencyUs),
            CalcStats(runs, GigaOpsMetric), CalcStats(runs, PeakMemoryMb))
  }

  /** One table row: a configuration, its legacy summary and its modern summary. */
  datatype Row = Row(concurrency: int, dataSize: int, legacy: Summary, modern: Summary)

  predicate Observable(obs: seq<BurstObservation>)
  {
    |obs| == Iterations && forall i :: 0 <= i < |obs| ==> obs[i].durationNs > 0
  }

  function MeasuredRuns(concurrency: int, dataSize: int, obs: seq<BurstObservation>): (runs: seq<RunMetrics>)
    requires Observable(obs)
    ensures |runs| == Iterations
    ensures forall i :: 0 <= i < Iterations ==> runs[i] == BurstMetrics(concurrency, dataSize, obs[i])
  {
    seq(Iterations, i requires 0 <= i < Iterations => BurstMetrics(concurrency, dataSize, obs[i]))
  }

  function RowFor(pair: (int, int), legacy: seq<BurstObservation>, modern: seq<BurstObservation>): (row: Row)
    requires Observable(legacy) && Observable(modern)
    ensures row.dataSize == pair.0 && row.concurrency == pair.1
  {
    Row(pair.1, pair.0,
        Summarize(MeasuredRuns(pair.1, pair.0, legacy)),
        Summarize(MeasuredRuns(pair.1, pair.0, modern)))
  }

  /** One iteration of the inner sweep loop: both executors measured and summarised. */
  method MeasureRow(pair: (int, int), legacy: seq<BurstObservation>, modern: seq<BurstObservation>)
    returns (row: Row)
    requires Observable(legacy) && Observable(modern)
    ensures row == RowFor(pair, legacy, modern)
  {
    var (dataSize, concurrency) := pair;
    var legRuns := Measure(concurrency, dataSize, legacy);
    var modRuns := Measure(concurrency, dataSize, modern);
    assert legRuns == MeasuredRuns(concurrency, dataSize, legacy);
    assert modRuns == MeasuredRuns(concurrency, dataSize, modern);
    row := Row(concurrency, dataSize, Summarize(legRuns), Summarize(modRuns));
  }

  /** The rows so far are those of the first configurations, in visiting order. */
  predicate RowsMatch(rows: seq<Row>, pairs: seq<(int, int)>,
                      legacy: seq<seq<BurstObservation>>, modern: seq<seq<BurstObservation>>)
  {
    && |rows| <= |pairs|
    && |rows| <= |legacy|
    && |rows| <= |modern|
    && forall k :: 0 <= k < |rows| ==>
         Observable(legacy[k]) && Observable(modern[k]) && rows[k] == RowFor(pairs[k], legacy[k], modern[k])
  }

  /** Appending the next configuration's row keeps `RowsMatch`. */
  lemma RowsMatchStep(rows: seq<Row>, pairs: seq<(int, int)>,
                      legacy: seq<seq<BurstObservation>>, modern: seq<seq<BurstObservation>>, row: Row)
    requires RowsMatch(rows, pairs, legacy, modern)
    requires |rows| < |pairs| && |rows| < |legacy| && |rows| < |modern|
    requires Observable(legacy[|rows|]) && Observable(modern[|rows|])
    requires row == RowFor(pairs[|rows|], legacy[|rows|], modern[|rows|])
    ensures RowsMatch(rows + [row], pairs, legacy, modern)
  {
    assert (rows + [row])[..|rows|] == rows;
  }

  /**
   * `main`'s sweep: for every data size, for every concurrency level, measure
   * the legacy executor then the modern one and summarise both. Observation
   * `k` belongs to the `k`-th configuration visited.
   */
  method Sweep(dataSteps: seq<int>, concurrencySteps: seq<int>,
               legacy: seq<seq<BurstObservation>>, modern: seq<seq<BurstObservation>>)
    returns (rows: seq<Row>)
    requires |legacy| == |modern| == |dataSteps| * |concurrencySteps|
    requires forall k :: 0 <= k < |legacy| ==> Observable(legacy[k]) && Observable(modern[k])
    ensures |rows| == |dataSteps| * |concurrencySteps|
    ensures forall k :: 0 <= k < |rows| ==>
      rows[k] == RowFor(SweepOrder.Pairs(dataSteps, concurrencySteps)[k], legacy[k], modern[k])
  {
    ghost var pairs := SweepOrder.Pairs(dataSteps, concurrencySteps);
    var width := |concurrencySteps|;
    rows := [];
    var di := 0;
    while di < |dataSteps|
      invariant 0 <= di <= |dataSteps|
      invariant |rows| == di * width
      invariant RowsMatch(rows, pairs, legacy, modern)
    {
      var ci := 0;
      while ci < width
        invariant 0 <= ci <= width
        invariant |rows| == di * width + ci
        invariant RowsMatch(rows, pairs, legacy, modern)
      {
        var k := |rows|;
        SweepOrder.PairsAt(dataSteps, concurrencySteps, di, ci);
        var row := MeasureRow((dataSteps[di], concurrencySteps[ci]), legacy[k], modern[k]);
        RowsMatchStep(rows, pairs, legacy, modern, row);
        rows := rows + [row];
        ci := ci + 1;
      }
      assert di * width + width == (di + 1) * width;
      di := di + 1;
    }
  }

  /**
   * `main`'s own steps: one data size, 1 000, at concurrency 10 000 then
   * 50 000. Unlike the optimisation sweeper, its data size fits the
   * `MaxDataSize` arrays, so every task reads inside them.
   */
  method SweepMain(legacy: seq<seq<BurstObservation>>, modern: seq<seq<BurstObservation>>)
    returns (rows: seq<Row>)
    requires |legacy| == |modern| == 2
    requires forall k :: 0 <= k < 2 ==> Observable(legacy[k]) && Observable(modern[k])
    ensures |rows| == 2
    ensures rows[0] == RowFor((1_000, 10_000), legacy[0], modern[0])
    ensures rows[1] == RowFor((1_000, 50_000), legacy[1], modern[1])
    ensures forall k :: 0 <= k < |rows| ==> 0 < rows[k].dataSize <= MaxDataSize
  {
    rows := Sweep(DataSteps, ConcurrencySteps, legacy, modern);
    SweepOrder.PairsAt(DataSteps, ConcurrencySteps, 0, 0);
    SweepOrder.PairsAt(DataSteps, ConcurrencySteps, 0, 1);
  }
}
