/**
 * module6/OptimizationSweeper.java without its threads: for every data size
 * and every concurrency level, one legacy burst (fixed pool, scalar kernel)
 * and one modern burst (virtual threads, vector kernel), recorded as a
 * `Result`, while the record with the highest modern GigaOps is kept. The
 * burst durations are inputs.
 */
module OptSweeper {
  import opened Wrappers
  import opened Kernels
  import Rates
  import SweepOrder

  /** The length the benchmark gives its two shared data arrays. */
  const MaxDataSize: nat := 200_000
  const ConcurrencySteps: seq<int> := [1_000, 10_000, 50_000, 100_000, 200_000, 500_000]
  const DataSteps: seq<int> := [100, 10_000, 100_000, 200_000, 500_000]

  datatype Result = Result(
    concurrency: int, dataSize: int,
    legacyReqPerSec: real, modernReqPerSec: real,
    legacyGigaOps: real, modernGigaOps: real,
    speedup: real)

  /** The all-zero record `bestCompute` starts from. */
  const NoResult: Result := Result(0, 0, 0.0, 0.0, 0.0, 0.0, 0.0)

  /** `legacyRps > 0 ? modernRps / legacyRps : 0`: the gain, never a division by zero. */
  function Speedup(legacyRps: real, modernRps: real): (s: real)
    ensures legacyRps > 0.0 ==> s * legacyRps == modernRps
    ensures legacyRps <= 0.0 ==> s == 0.0
  {
    if legacyRps > 0.0 then modernRps / legacyRps else 0.0
  }

  /** How long the legacy and the modern burst of one configuration took, in nanoseconds. */
  datatype BurstTimes = BurstTimes(legacyNs: int, modernNs: int)

  predicate Timed(t: BurstTimes)
  {
    t.legacyNs > 0 && t.modernNs > 0
  }

  /** The record the loop body builds for configuration `(dataSize, concurrency)`. */
  function MakeResult(pair: (int, int), t: BurstTimes): (r: Result)
    requires Timed(t)
    ensures r.dataSize == pair.0 && r.concurrency == pair.1
    ensures r.legacyReqPerSec * (t.legacyNs as real / Rates.NanosPerSecond) == pair.1 as real
    ensures r.modernReqPerSec * (t.modernNs as real / Rates.NanosPerSecond) == pair.1 as real
  {
    var (dataSize, concurrency) := pair;
    var legacyRps := Rates.Rate(concurrency, t.legacyNs);
    var modernRps := Rates.Rate(concurrency, t.modernNs);
    Result(concurrency, dataSize, legacyRps, modernRps,
           Rates.GigaOps(legacyRps, dataSize), Rates.GigaOps(modernRps, dataSize),
           Speedup(legacyRps, modernRps))
  }

  /** Each record carries its own configuration, and its GigaOps follow from its rates. */
  lemma MakeResultMeaning(pair: (int, int), t: BurstTimes)
    requires Timed(t)
    ensures MakeResult(pair, t).dataSize == pair.0 && MakeResult(pair, t).concurrency == pair.1
    ensures MakeResult(pair, t).modernGigaOps * t.modernNs as real
            == 2.0 * pair.1 as real * pair.0 as real
    ensures pair.1 > 0 ==> MakeResult(pair, t).speedup * t.modernNs as real == t.legacyNs as real
  {
    Rates.GigaOpsIsOpsPerNanosecond(pair.1, pair.0, t.modernNs);
    var r := MakeResult(pair, t);
    if pair.1 > 0 {
      var c := pair.1 as real;
      var sl := t.legacyNs as real / Rates.NanosPerSecond;
      var sm := t.modernNs as real / Rates.NanosPerSecond;
      assert r.legacyReqPerSec * sl == c && r.modernReqPerSec * sm == c;
      assert r.legacyReqPerSec >= 0.0;
      assert r.legacyReqPerSec != 0.0;
      calc {
        r.speedup * t.modernNs as real;
        r.speedup * sm * Rates.NanosPerSecond;
        { assert r.speedup * r.legacyReqPerSec == r.modernReqPerSec; }
        r.modernReqPerSec * sm / r.legacyReqPerSec * Rates.NanosPerSecond;
        c / r.legacyReqPerSec * Rates.NanosPerSecond;
        sl * Rates.NanosPerSecond;
        t.legacyNs as real;
      }
    }
  }

  /** The running selection: a later record replaces the best only when strictly higher. */
  function BestOf(results: seq<Result>): (best: Result)
    ensures best == NoResult || best in results
  {
    if results == [] then NoResult
    else
      var best := BestOf(results[..|results| - 1]);
      var res := results[|results| - 1];
      if res.modernGigaOps > best.modernGigaOps then res else best
  }

  /** The kept record's modern GigaOps is at least every result's and at least zero. */
  lemma {:induction false} BestIsMaximum(results: seq<Result>)
    ensures BestOf(results).modernGigaOps >= 0.0
    ensures forall i :: 0 <= i < |results| ==> BestOf(results).modernGigaOps >= results[i].modernGigaOps
  {
    if results != [] {
      BestIsMaximum(results[..|results| - 1]);
    }
  }

  /** When no result rises above zero GigaOps, the all-zero starting record is what remains. */
  lemma {:induction false} BestStaysEmpty(results: seq<Result>)
    requires forall i :: 0 <= i < |results| ==> results[i].modernGigaOps <= 0.0
    ensures BestOf(results) == NoResult
  {
    if results != [] {
      BestStaysEmpty(results[..|results| - 1]);
    }
  }

  /**
   * Otherwise the kept record is a result of the sweep, the first one to
   * reach the highest modern GigaOps: every earlier result is strictly lower.
   */
  lemma {:induction false} BestIsFirstMaximum(results: seq<Result>) returns (i: int)
    requires exists j :: 0 <= j < |results| && results[j].modernGigaOps > 0.0
    ensures 0 <= i < |results| && BestOf(results) == results[i]
    ensures forall j :: 0 <= j < i ==> results[j].modernGigaOps < results[i].modernGigaOps
  {
    var n := |results|;
    var init := results[..n - 1];
    var best := BestOf(init);
    BestIsMaximum(init);
    if results[n - 1].modernGigaOps > best.modernGigaOps {
      i := n - 1;
    } else {
      var j :| 0 <= j < n && results[j].modernGigaOps > 0.0;
      if j == n - 1 {
        assert best.modernGigaOps >= results[n - 1].modernGigaOps > 0.0;
        assert exists j' :: 0 <= j' < |init| && init[j'].modernGigaOps > 0.0 by {
          if forall j' :: 0 <= j' < |init| ==> init[j'].modernGigaOps <= 0.0 {
            BestStaysEmpty(init);
          }
        }
      } else {
        assert init[j].modernGigaOps > 0.0;
      }
      i := BestIsFirstMaximum(init);
    }
  }

  /** Both tasks of a configuration read the shared arrays up to `dataSize`. */
  predicate TaskFits(dataSize: int, a: array<real>, b: array<real>)
  {
    dataSize <= a.Length && dataSize <= b.Length
  }

  /**
   * One submitted task: the kernel over the shared arrays. An index beyond
   * the arrays throws; the exception stays in its Future, which is
   * never read, so the burst goes on regardless.
   */
  method RunTask(a: array<real>, b: array<real>, dataSize: int, legacy: bool, w: LaneWidth)
    returns (outcome: Option<real>)
    ensures outcome.Some? <==> TaskFits(dataSize, a, b)
    ensures outcome.Some? ==> outcome.value == Dot(a[..], b[..], dataSize)
  {
    if !TaskFits(dataSize, a, b) {
      return None;
    }
    var sum: real;
    if legacy {
      sum := CalculateScalar(a, b, dataSize);
    } else {
      sum := CalculateVector(a, b, dataSize, w);
    }
    return Some(sum);
  }

  /** One configuration: a legacy and a modern burst, their rates, GigaOps and gain. */
  method MeasureConfiguration(pair: (int, int), t: BurstTimes, a: array<real>, b: array<real>, w: LaneWidth)
    returns (res: Result, completed: bool)
    requires Timed(t)
    ensures res == MakeResult(pair, t)
    ensures completed <==> TaskFits(pair.0, a, b)
  {
    var (dataSize, concurrency) := pair;
    var legacyTask := RunTask(a, b, dataSize, true, w);
    var legacyRps := Rates.Rate(concurrency, t.legacyNs);
    var legacyOps := Rates.GigaOps(legacyRps, dataSize);
    var modernTask := RunTask(a, b, dataSize, false, w);
    var modernRps := Rates.Rate(concurrency, t.modernNs);
    var modernOps := Rates.GigaOps(modernRps, dataSize);
    var speedup := if legacyRps > 0.0 then modernRps / legacyRps else 0.0;
    res := Result(concurrency, dataSize, legacyRps, modernRps, legacyOps, modernOps, speedup);
    completed := legacyTask.Some? && modernTask.Some?;
  }

  /** The first `|results|` configurations of `pairs` have been measured with their times. */
  predicate Recorded(results: seq<Result>, pairs: seq<(int, int)>, times: seq<BurstTimes>)
  {
    && |results| <= |pairs|
    && |results| <= |times|
    && forall k :: 0 <= k < |results| ==> Timed(times[k]) && results[k] == MakeResult(pairs[k], times[k])
  }

  /** Every measured configuration's tasks could read their data from the arrays. */
  predicate ResultsFit(results: seq<Result>, a: array<real>, b: array<real>)
  {
    forall k :: 0 <= k < |results| ==> TaskFits(results[k].dataSize, a, b)
  }

  /** One step of the inner loop keeps the loop's three facts. */
  lemma SweepStep(results: seq<Result>, pairs: seq<(int, int)>, times: seq<BurstTimes>,
                  res: Result, a: array<real>, b: array<real>)
    requires Recorded(results, pairs, times)
    requires |results| < |pairs| && |results| < |times| && Timed(times[|results|])
    requires res == MakeResult(pairs[|results|], times[|results|])
    ensures Recorded(results + [res], pairs, times)
    ensures BestOf(results + [res])
            == if res.modernGigaOps > BestOf(results).modernGigaOps then res else BestOf(results)
    ensures ResultsFit(results + [res], a, b) <==> ResultsFit(results, a, b) && TaskFits(res.dataSize, a, b)
  {
    assert (results + [res])[..|results|] == results;
  }

  /**
   * `main`'s sweep: results in data-major order, one per configuration, each
   * recording its own pair, with `bestCompute` the first record of highest
   * modern GigaOps (or the zero record). `allCompleted` tells whether every
   * task could read its data size from the arrays.
   */
  method Sweep(dataSteps: seq<int>, concurrencySteps: seq<int>, times: seq<BurstTimes>,
               a: array<real>, b: array<real>, w: LaneWidth)
    returns (results: seq<Result>, bestCompute: Result, allCompleted: bool)
    requires |times| == |dataSteps| * |concurrencySteps|
    requires forall k :: 0 <= k < |times| ==> Timed(times[k])
    ensures |results| == |dataSteps| * |concurrencySteps|
    ensures forall k :: 0 <= k < |results| ==>
      results[k] == MakeResult(SweepOrder.Pairs(dataSteps, concurrencySteps)[k], times[k])
    ensures bestCompute == BestOf(results)
    ensures allCompleted <==> forall k :: 0 <= k < |results| ==> TaskFits(results[k].dataSize, a, b)
  {
    ghost var pairs := SweepOrder.Pairs(dataSteps, concurrencySteps);
    var width := |concurrencySteps|;
    results := [];
    bestCompute := NoResult;
    allCompleted := true;
    var di := 0;
    while di < |dataSteps|
      invariant 0 <= di <= |dataSteps|
      invariant |results| == di * width
      invariant Recorded(results, pairs, times)
      invariant bestCompute == BestOf(results)
      invariant allCompleted <==> ResultsFit(results, a, b)
    {
      var ci := 0;
      while ci < width
        invariant 0 <= ci <= width
        invariant |results| == di * width + ci
        invariant Recorded(results, pairs, times)
        invariant bestCompute == BestOf(results)
        invariant allCompleted <==> ResultsFit(results, a, b)
      {
        var k := |results|;
        SweepOrder.PairsAt(dataSteps, concurrencySteps, di, ci);
        var res, completed := MeasureConfiguration((dataSteps[di], concurrencySteps[ci]), times[k], a, b, w);
        SweepStep(results, pairs, times, res, a, b);
        results := results + [res];
        if res.modernGigaOps > bestCompute.modernGigaOps {
          bestCompute := res;
        }
        allCompleted := allCompleted && completed;
        ci := ci + 1;
      }
      assert di * width + width == (di + 1) * width;
      di := di + 1;
    }
  }

  /** Every data size of `dataSteps` is at most `capacity`. */
  predicate AllFit(dataSteps: seq<int>, capacity: int)
  {
    forall i :: 0 <= i < |dataSteps| ==> dataSteps[i] <= capacity
  }

  /**
   * As written, the last data size exceeds the arrays: the 500_000 tasks of
   * the sweep throw, yet their GigaOps figure counts 500_000 elements per
   * request, two and a half times what the arrays hold.
   */
  lemma DataStepsOverrunArrays(reqPerSec: real)
    ensures DataSteps[4] == 500_000 > MaxDataSize
    ensures !AllFit(DataSteps, MaxDataSize)
    ensures Rates.GigaOps(reqPerSec, DataSteps[4]) == 2.5 * Rates.GigaOps(reqPerSec, MaxDataSize)
  {
  }

  /**
   * `main` as written: the sweep over the program's own steps on arrays of
   * `MaxDataSize`. It still records all 30 results, but not every task
   * completes: the configuration at position 24, the first with data size
   * 500_000, reads past the arrays.
   */
  method SweepAsWritten(times: seq<BurstTimes>, w: LaneWidth)
    returns (results: seq<Result>, bestCompute: Result, allCompleted: bool)
    requires |times| == |DataSteps| * |ConcurrencySteps|
    requires forall k :: 0 <= k < |times| ==> Timed(times[k])
    ensures |results| == 30
    ensures forall k :: 0 <= k < |results| ==>
      results[k] == MakeResult(SweepOrder.Pairs(DataSteps, ConcurrencySteps)[k], times[k])
    ensures bestCompute == BestOf(results)
    ensures results[24].dataSize == 500_000 > MaxDataSize
    ensures !allCompleted
  {
    var a := new real[MaxDataSize];
    var b := new real[MaxDataSize];
    results, bestCompute, allCompleted := Sweep(DataSteps, ConcurrencySteps, times, a, b, w);
    SweepOrder.PairsAt(DataSteps, ConcurrencySteps, 4, 0);
    assert 4 * |ConcurrencySteps| + 0 == 24;
    assert !TaskFits(results[24].dataSize, a, b);
  }

  /** The largest data size of the sweep (0 for none): the array length every task needs. */
  function Capacity(dataSteps: seq<int>): (c: nat)
    ensures AllFit(dataSteps, c)
    ensures forall cap :: cap >= 0 && AllFit(dataSteps, cap) ==> c <= cap
  {
    if dataSteps == [] then 0
    else
      var c := Capacity(dataSteps[..|dataSteps| - 1]);
      var d := dataSteps[|dataSteps| - 1];
      assert forall cap :: AllFit(dataSteps, cap) ==> AllFit(dataSteps[..|dataSteps| - 1], cap);
      if d > c then d else c
  }

  /** Arrays sized to the largest data step, 500_000, so that no task throws. */
  const FittedDataSize: nat := Capacity(DataSteps)

  lemma FittedDataSizeCoversSweep()
    ensures FittedDataSize == 500_000
    ensures AllFit(DataSteps, FittedDataSize)
  {
    assert AllFit(DataSteps, 500_000);
    assert DataSteps[4] <= FittedDataSize;
  }

  /** The sweep over the program's own steps with arrays of `FittedDataSize`: every task completes. */
  method SweepFitted(times: seq<BurstTimes>, w: LaneWidth)
    returns (results: seq<Result>, bestCompute: Result, allCompleted: bool)
    requires |times| == |DataSteps| * |ConcurrencySteps|
    requires forall k :: 0 <= k < |times| ==> Timed(times[k])
    ensures |results| == 30
    ensures forall k :: 0 <= k < |results| ==>
      results[k] == MakeResult(SweepOrder.Pairs(DataSteps, ConcurrencySteps)[k], times[k])
    ensures bestCompute == BestOf(results)
    ensures allCompleted
  {
    var a := new real[FittedDataSize];
    var b := new real[FittedDataSize];
    results, bestCompute, allCompleted := Sweep(DataSteps, ConcurrencySteps, times, a, b, w);
    forall k | 0 <= k < |results|
      ensures TaskFits(results[k].dataSize, a, b)
    {
      var di, ci := k / |ConcurrencySteps|, k % |ConcurrencySteps|;
      SweepOrder.PairsAt(DataSteps, ConcurrencySteps, di, ci);
      assert di * |ConcurrencySteps| + ci == k;
      FittedDataSizeCoversSweep();
    }
  }
}
