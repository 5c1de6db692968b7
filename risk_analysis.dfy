/**
 * module6/RiskAnalysisServer.java without its threads: a 3x3 matrix of
 * scenarios (three concurrency levels by three data sizes), each measured
 * five times with a fixed pool running the scalar kernel and five times with
 * virtual threads running the vector kernel, summarised as mean and
 * population variance of the request rate. Burst durations are inputs.
 */
module RiskAnalysis {
  import opened Statistics
  import Rates

  const MaxDataSize: nat := 100_000
  const Iterations: nat := 5
  const PoolSize: int := 100

  const ReqLevels: seq<int> := [1_000, 10_000, 50_000]
  const DataLevels: seq<int> := [1_000, 10_000, 100_000]
  const ReqLabels: seq<string> := ["Lo-Conc", "Med-Conc", "Hi-Conc"]
  const DataLabels: seq<string> := ["Sm-Data", "Med-Data", "Lg-Data"]

  datatype Scenario = Scenario(name: string, numRequests: int, dataSize: int, poolSize: int)

  /** The scenario of data level `d` and concurrency level `c`. */
  function ScenarioAt(d: int, c: int): (s: Scenario)
    requires 0 <= d < 3 && 0 <= c < 3
    ensures s.numRequests > 0 && 0 < s.dataSize <= MaxDataSize && s.poolSize == PoolSize
    ensures |s.name| > 0
  {
    Scenario(ReqLabels[c] + "/" + DataLabels[d], ReqLevels[c], DataLevels[d], PoolSize)
  }

  /** The nested loops of `main` that fill the scenario list, data level outermost. */
  method BuildScenarios() returns (scenarios: seq<Scenario>)
    ensures |scenarios| == 9
    ensures forall d, c :: 0 <= d < 3 && 0 <= c < 3 ==> scenarios[3 * d + c] == ScenarioAt(d, c)
  {
    scenarios := [];
    var d := 0;
    while d < 3
      invariant 0 <= d <= 3
      invariant |scenarios| == 3 * d
      invariant forall d', c :: 0 <= d' < d && 0 <= c < 3 ==> scenarios[3 * d' + c] == ScenarioAt(d', c)
    {
      var c := 0;
      while c < 3
        invariant 0 <= c <= 3
        invariant |scenarios| == 3 * d + c
        invariant forall d', c' :: 0 <= d' < d && 0 <= c' < 3 ==> scenarios[3 * d' + c'] == ScenarioAt(d', c')
        invariant forall c' :: 0 <= c' < c ==> scenarios[3 * d + c'] == ScenarioAt(d, c')
      {
        var name := ReqLabels[c] + "/" + DataLabels[d];
        scenarios := scenarios + [Scenario(name, ReqLevels[c], DataLevels[d], PoolSize)];
        c := c + 1;
      }
      d := d + 1;
    }
  }

  /**
   * What the matrix holds: every scenario has its own name, uses the shared
   * pool of 100 threads, and its data size fits the arrays of `MaxDataSize`
   * elements; the requests grow along a row and the data down a column.
   */
  lemma ScenarioMatrixFacts()
    ensures forall d, c :: 0 <= d < 3 && 0 <= c < 3 ==>
      ScenarioAt(d, c).poolSize == 100 && 0 < ScenarioAt(d, c).dataSize <= MaxDataSize
    ensures forall d, c, d', c' ::
      (0 <= d < 3 && 0 <= c < 3 && 0 <= d' < 3 && 0 <= c' < 3 && (d, c) != (d', c'))
      ==> ScenarioAt(d, c).name != ScenarioAt(d', c').name
    ensures forall d, c :: 0 <= d < 3 && 0 <= c < 2 ==> ScenarioAt(d, c).numRequests < ScenarioAt(d, c + 1).numRequests
    ensures forall d, c :: 0 <= d < 2 && 0 <= c < 3 ==> ScenarioAt(d, c).dataSize < ScenarioAt(d + 1, c).dataSize
  {
    forall d, c, d', c' | 0 <= d < 3 && 0 <= c < 3 && 0 <= d' < 3 && 0 <= c' < 3 && (d, c) != (d', c')
      ensures ScenarioAt(d, c).name != ScenarioAt(d', c').name
    {
      NamesDiffer(d, c, d', c');
    }
  }

  lemma NamesDiffer(d: int, c: int, d': int, c': int)
    requires 0 <= d < 3 && 0 <= c < 3 && 0 <= d' < 3 && 0 <= c' < 3 && (d, c) != (d', c')
    ensures ScenarioAt(d, c).name != ScenarioAt(d', c').name
  {
    var n, n' := ScenarioAt(d, c).name, ScenarioAt(d', c').name;
    if c != c' {
      assert n[0] == ReqLabels[c][0] && n'[0] == ReqLabels[c'][0];
    } else {
      var k := |ReqLabels[c]| + 1;
      assert n[k..] == DataLabels[d] && n'[k..] == DataLabels[d'];
    }
  }

  /** Which executor and which kernel a measurement uses. */
  datatype Executor = FixedThreadPool(threads: int) | VirtualThreadPerTask
  datatype Kernel = ScalarKernel | VectorKernel
  datatype Setup = Setup(executor: Executor, kernel: Kernel, requests: int, dataSize: int)

  /** The executor and the work item `measure` builds for a scenario, per iteration. */
  function SetupFor(s: Scenario, legacy: bool): (st: Setup)
    ensures legacy <==> st.executor.FixedThreadPool?
    ensures legacy ==> st.executor.threads == s.poolSize && st.kernel == ScalarKernel
    ensures !legacy ==> st.kernel == VectorKernel
    ensures st.requests == s.numRequests && st.dataSize == s.dataSize
  {
    if legacy then Setup(FixedThreadPool(s.poolSize), ScalarKernel, s.numRequests, s.dataSize)
    else Setup(VirtualThreadPerTask, VectorKernel, s.numRequests, s.dataSize)
  }

  /** `runIteration`: `requests / (ns / 1e9)` for a run that took `ns` nanoseconds. */
  function IterationRate(requests: int, ns: int): (r: real)
    requires ns > 0
    ensures r * (ns as real / Rates.NanosPerSecond) == requests as real
  {
    Rates.Rate(requests, ns)
  }

  /**
   * `measure`: `Iterations` runs one after another, each on a fresh executor
   * of the scenario's kind; `durations[i]` is how long run `i` took.
   */
  method Measure(s: Scenario, legacy: bool, durations: seq<int>)
    returns (stats: StatResult, setups: seq<Setup>, rates: seq<real>)
    requires |durations| == Iterations
    requires forall i :: 0 <= i < |durations| ==> durations[i] > 0
    ensures |rates| == |setups| == Iterations
    ensures forall i :: 0 <= i < Iterations ==>
      setups[i] == SetupFor(s, legacy) && rates[i] == IterationRate(s.numRequests, durations[i])
    ensures stats == StatsOf(rates)
  {
    setups := [];
    rates := [];
    var i := 0;
    while i < Iterations
      invariant 0 <= i <= Iterations
      invariant |rates| == |setups| == i
      invariant forall k :: 0 <= k < i ==>
        setups[k] == SetupFor(s, legacy) && rates[k] == IterationRate(s.numRequests, durations[k])
    {
      var setup := SetupFor(s, legacy);
      setups := setups + [setup];
      rates := rates + [IterationRate(setup.requests, durations[i])];
      i := i + 1;
    }
    stats := StatsOf(rates);
  }

  /** `mod.mean / leg.mean`, with no guard: the caller must see a non-zero legacy mean. */
  function Speedup(leg: StatResult, mod: StatResult): (r: real)
    requires leg.mean != 0.0
    ensures r * leg.mean == mod.mean
  {
    mod.mean / leg.mean
  }

  /**
   * For the matrix the missing guard does no harm: with a positive request
   * count and positive durations every rate is positive, and so is their mean.
   */
  lemma LegacyMeanPositive(s: Scenario, durations: seq<int>)
    requires s.numRequests > 0
    requires |durations| > 0 && forall i :: 0 <= i < |durations| ==> durations[i] > 0
    ensures var rates := seq(|durations|, i requires 0 <= i < |durations| => IterationRate(s.numRequests, durations[i]));
      StatsOf(rates).mean > 0.0
  {
    var rates := seq(|durations|, i requires 0 <= i < |durations| => IterationRate(s.numRequests, durations[i]));
    forall i | 0 <= i < |rates|
      ensures rates[i] > 0.0
    {
      var t := durations[i] as real / Rates.NanosPerSecond;
      assert rates[i] * t == s.numRequests as real;
      assert rates[i] >= 0.0;
    }
    MeanPositive(rates);
  }
}
