/**
 * Mean and population variance of a list of trial values (divide by N,
 * not N - 1), as `calcStats` in module6/GCOptimizationSweeper.java and the
 * `Stats` constructor in module6/RiskAnalysisServer.java compute them.
 */
module Statistics {

  function Sum(xs: seq<real>): real
  {
    if xs == [] then 0.0 else Sum(xs[..|xs| - 1]) + xs[|xs| - 1]
  }

  /** `DoubleSummaryStatistics.getAverage()`: the arithmetic mean, 0 for no values. */
  function Mean(xs: seq<real>): (m: real)
    ensures |xs| == 0 ==> m == 0.0
    ensures |xs| > 0 ==> m * |xs| as real == Sum(xs)
  {
    if |xs| == 0 then 0.0 else Sum(xs) / |xs| as real
  }

  /** The squared distance of every value from `m`. */
  function SquaredDeviations(xs: seq<real>, m: real): (d: seq<real>)
    ensures |d| == |xs|
    ensures forall i :: 0 <= i < |d| ==> d[i] == (xs[i] - m) * (xs[i] - m) && d[i] >= 0.0
  {
    DeviationSquaresNonNegative(xs, m);
    seq(|xs|, i requires 0 <= i < |xs| => (xs[i] - m) * (xs[i] - m))
  }

  lemma DeviationSquaresNonNegative(xs: seq<real>, m: real)
    ensures forall i :: 0 <= i < |xs| ==> (xs[i] - m) * (xs[i] - m) >= 0.0
  {
    forall i | 0 <= i < |xs|
      ensures (xs[i] - m) * (xs[i] - m) >= 0.0
    {
      if xs[i] - m != 0.0 {
        SquarePositive(xs[i] - m);
      }
    }
  }

  /** Σ (x - mean)² / N: the population variance. */
  function Variance(xs: seq<real>): (v: real)
    requires |xs| > 0
    ensures v >= 0.0
  {
    SumNonNegative(SquaredDeviations(xs, Mean(xs)));
    Sum(SquaredDeviations(xs, Mean(xs))) / |xs| as real
  }

  /** The mean and variance of one metric over the trials of one configuration. */
  datatype StatResult = StatResult(mean: real, variance: real)

  function StatsOf(xs: seq<real>): (r: StatResult)
    requires |xs| > 0
    ensures r.variance >= 0.0
  {
    VarianceNonNegative(xs);
    StatResult(Mean(xs), Variance(xs))
  }

  /** `s` is what `Math.sqrt(variance)` stands for: the non-negative square root. */
  ghost predicate IsStdDev(variance: real, s: real)
  {
    s >= 0.0 && s * s == variance
  }

  predicate AllEqual(xs: seq<real>)
  {
    forall i, j :: 0 <= i < |xs| && 0 <= j < |xs| ==> xs[i] == xs[j]
  }

  /** Bounds on every value bound the sum by N times those bounds. */
  lemma {:induction false} SumBetween(xs: seq<real>, lo: real, hi: real)
    requires forall i :: 0 <= i < |xs| ==> lo <= xs[i] <= hi
    ensures |xs| as real * lo <= Sum(xs) <= |xs| as real * hi
  {
    if xs != [] {
      SumBetween(xs[..|xs| - 1], lo, hi);
    }
  }

  /** The mean lies between any lower and upper bound of the values. */
  lemma MeanBetween(xs: seq<real>, lo: real, hi: real)
    requires |xs| > 0
    requires forall i :: 0 <= i < |xs| ==> lo <= xs[i] <= hi
    ensures lo <= Mean(xs) <= hi
  {
    SumBetween(xs, lo, hi);
    var n := |xs| as real;
    assert Mean(xs) * n == Sum(xs);
  }

  /** A sum of non-negative terms is non-negative, and zero only when every term is. */
  lemma {:induction false} SumNonNegative(xs: seq<real>)
    requires forall i :: 0 <= i < |xs| ==> xs[i] >= 0.0
    ensures Sum(xs) >= 0.0
    ensures Sum(xs) == 0.0 ==> forall i :: 0 <= i < |xs| ==> xs[i] == 0.0
  {
    if xs != [] {
      SumNonNegative(xs[..|xs| - 1]);
    }
  }

  /** Positive values have a positive mean. */
  lemma MeanPositive(xs: seq<real>)
    requires |xs| > 0
    requires forall i :: 0 <= i < |xs| ==> xs[i] > 0.0
    ensures Mean(xs) > 0.0
  {
    SumPositive(xs);
  }

  lemma {:induction false} SumPositive(xs: seq<real>)
    requires |xs| > 0
    requires forall i :: 0 <= i < |xs| ==> xs[i] > 0.0
    ensures Sum(xs) > 0.0
  {
    if |xs| > 1 {
      SumPositive(xs[..|xs| - 1]);
    }
  }

  lemma VarianceNonNegative(xs: seq<real>)
    requires |xs| > 0
    ensures Variance(xs) >= 0.0
  {
    SumNonNegative(SquaredDeviations(xs, Mean(xs)));
  }

  /** The variance is zero exactly when all trial values are the same. */
  lemma VarianceZeroIffAllEqual(xs: seq<real>)
    requires |xs| > 0
    ensures Variance(xs) == 0.0 <==> AllEqual(xs)
  {
    if AllEqual(xs) {
      AllEqualHasNoVariance(xs);
    }
    if Variance(xs) == 0.0 {
      NoVarianceMeansAllEqual(xs);
    }
  }

  lemma AllEqualHasNoVariance(xs: seq<real>)
    requires |xs| > 0 && AllEqual(xs)
    ensures Variance(xs) == 0.0
  {
    var m := Mean(xs);
    assert m == xs[0] by {
      MeanBetween(xs, xs[0], xs[0]);
    }
    var d := SquaredDeviations(xs, m);
    assert Sum(d) == 0.0 by {
      forall i | 0 <= i < |d|
        ensures d[i] == 0.0
      {
        assert xs[i] == xs[0];
        ZeroSquare(xs[i] - m);
      }
      SumBetween(d, 0.0, 0.0);
    }
  }

  lemma NoVarianceMeansAllEqual(xs: seq<real>)
    requires |xs| > 0 && Variance(xs) == 0.0
    ensures AllEqual(xs)
  {
    var m := Mean(xs);
    var d := SquaredDeviations(xs, m);
    var n := |xs| as real;
    assert Sum(d) == Variance(xs) * n;
    SumNonNegative(d);
    forall i | 0 <= i < |xs|
      ensures xs[i] == m
    {
      SquareZero(xs[i] - m, d[i]);
    }
  }

  /** A value whose square is zero is zero. */
  lemma SquareZero(u: real, sq: real)
    requires sq == u * u && sq == 0.0
    ensures u == 0.0
  {
    if u != 0.0 {
      SquarePositive(u);
      calc {
        0.0;
        sq;
        u * u;
      >
        0.0;
      }
      assert false;
    }
  }

  lemma ZeroSquare(u: real)
    requires u == 0.0
    ensures u * u == 0.0
  {
  }

  lemma SquarePositive(t: real)
    requires t != 0.0
    ensures t * t > 0.0
  {
    if t < 0.0 {
      MulPositive(-t, -t);
      calc {
        t * t;
        (-t) * (-t);
      >
        0.0;
      }
    } else {
      MulPositive(t, t);
    }
  }

  lemma MulPositive(x: real, y: real)
    requires x > 0.0 && y > 0.0
    ensures x * y > 0.0
  {
  }

  /** The standard deviation is zero exactly when all trial values are the same. */
  lemma StdDevZeroIffAllEqual(xs: seq<real>, s: real)
    requires |xs| > 0 && IsStdDev(Variance(xs), s)
    ensures s == 0.0 <==> AllEqual(xs)
  {
    VarianceZeroIffAllEqual(xs);
    if Variance(xs) == 0.0 {
      SquareZero(s, Variance(xs));
    }
  }

  /** Population, not sample, variance: for [1, 3] it is 1 (the sample variance would be 2). */
  lemma PopulationVarianceExample()
    ensures Mean([1.0, 3.0]) == 2.0 && Variance([1.0, 3.0]) == 1.0
  {
    assert [1.0, 3.0][..1] == [1.0];
    assert Sum([1.0, 3.0]) == 4.0;
    var d := SquaredDeviations([1.0, 3.0], 2.0);
    assert d[..1] == [1.0];
    assert Sum(d) == 2.0;
  }
}
