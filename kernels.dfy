/**
 * The dot-product workload of the three module6 benchmarks. `calculateScalar`
 * multiplies and adds element by element. `calculateVector` first runs over
 * groups of W elements (W is the lane count of the preferred vector species),
 * keeping one partial sum per lane. It then adds the lanes together and
 * finishes the remaining elements one at a time. Floats are modelled as
 * exact reals, so both kernels must give exactly the same sum.
 */
module Kernels {

  /** The lane count of a vector species: at least one lane. */
  type LaneWidth = w: int | w >= 1 witness 1

  /** Σ a[j]·b[j] over lo <= j < hi (empty when hi <= lo). */
  function DotRange(a: seq<real>, b: seq<real>, lo: int, hi: int): real
    requires 0 <= lo && hi <= |a| && hi <= |b|
    decreases hi - lo
  {
    if hi <= lo then 0.0 else DotRange(a, b, lo, hi - 1) + a[hi - 1] * b[hi - 1]
  }

  /** The dot product of the first `length` elements; a negative length sums nothing. */
  function Dot(a: seq<real>, b: seq<real>, length: int): real
    requires length <= |a| && length <= |b|
  {
    DotRange(a, b, 0, length)
  }

  /** A sum over consecutive ranges is the sum over their union. */
  lemma {:induction false} DotRangeSplit(a: seq<real>, b: seq<real>, lo: int, mid: int, hi: int)
    requires 0 <= lo <= mid <= hi <= |a| && hi <= |b|
    ensures DotRange(a, b, lo, mid) + DotRange(a, b, mid, hi) == DotRange(a, b, lo, hi)
    decreases hi - mid
  {
    if hi > mid {
      DotRangeSplit(a, b, lo, mid, hi - 1);
    }
  }

  /**
   * `VectorSpecies.loopBound(length)`: `length` rounded down to a multiple
   * of the lane count. For a negative length this is negative as well, and
   * neither kernel loop runs.
   */
  function LoopBound(length: int, w: LaneWidth): (r: int)
    ensures r % w == 0
    ensures r <= length < r + w
    ensures length >= 0 ==> r >= 0
  {
    MultipleMod(length / w, w);
    assert length == (length / w) * w + length % w;
    (length / w) * w
  }

  /** No larger multiple of the lane count fits under `length`. */
  lemma LoopBoundIsLargest(length: int, w: LaneWidth, m: int)
    requires m % w == 0 && m <= length
    ensures m <= LoopBound(length, w)
  {
    var k, q := m / w, length / w;
    assert m == k * w + m % w;
    assert length == q * w + length % w;
    if k > q {
      MulMonotone(q + 1, k, w);
      assert false;
    }
    MulMonotone(k, q, w);
  }

  lemma MulMonotone(x: int, y: int, w: LaneWidth)
    requires x <= y
    ensures x * w <= y * w
  {
  }

  lemma MultipleMod(q: int, w: LaneWidth)
    ensures (q * w) % w == 0 && (q * w) / w == q
  {
    var m := q * w;
    var k := m / w;
    assert m == k * w + m % w;
    if k > q {
      MulMonotone(q + 1, k, w);
      assert false;
    } else if k < q {
      MulMonotone(k + 1, q, w);
      assert false;
    }
  }

  lemma StepKeepsMultiple(i: int, w: LaneWidth)
    requires i % w == 0
    ensures (i + w) % w == 0
  {
    var p := i / w;
    assert i == p * w + i % w;
    assert i + w == (p + 1) * w;
    MultipleMod(p + 1, w);
  }

  /** A multiple of w below another multiple of w is at least w below it. */
  lemma NextMultipleFits(i: int, u: int, w: LaneWidth)
    requires i % w == 0 && u % w == 0 && i < u
    ensures i + w <= u
  {
    var p, q := i / w, u / w;
    assert i == p * w + i % w;
    assert u == q * w + u % w;
    if p >= q {
      MulMonotone(q, p, w);
      assert false;
    }
    MulMonotone(p + 1, q, w);
  }

  /** Worked example from module4/VectorDemo.java: length 100 with 8 lanes gives 96. */
  lemma LoopBoundExample()
    ensures LoopBound(100, 8) == 96 && 100 - LoopBound(100, 8) == 4
  {
  }

  // ----- the lane accumulator (a FloatVector value) -----

  /** `FloatVector.zero(SPECIES)`. */
  function ZeroLanes(w: LaneWidth): (v: seq<real>)
    ensures |v| == w && LaneSum(v) == 0.0
  {
    ZeroSumsToZero(seq(w, _ => 0.0));
    seq(w, _ => 0.0)
  }

  /** `va.mul(vb)` lane by lane. */
  function LaneMul(va: seq<real>, vb: seq<real>): (v: seq<real>)
    requires |va| == |vb|
    ensures |v| == |va| && forall k :: 0 <= k < |v| ==> v[k] == va[k] * vb[k]
  {
    seq(|va|, k requires 0 <= k < |va| => va[k] * vb[k])
  }

  /** `acc.add(v)` lane by lane. */
  function LaneAdd(acc: seq<real>, v: seq<real>): (r: seq<real>)
    requires |acc| == |v|
    ensures |r| == |acc| && forall k :: 0 <= k < |r| ==> r[k] == acc[k] + v[k]
  {
    seq(|acc|, k requires 0 <= k < |acc| => acc[k] + v[k])
  }

  /** `reduceLanes(ADD)`: the sum of all lanes. */
  function LaneSum(v: seq<real>): real
  {
    if v == [] then 0.0 else LaneSum(v[..|v| - 1]) + v[|v| - 1]
  }

  lemma {:induction false} ZeroSumsToZero(v: seq<real>)
    requires forall k :: 0 <= k < |v| ==> v[k] == 0.0
    ensures LaneSum(v) == 0.0
  {
    if v != [] {
      ZeroSumsToZero(v[..|v| - 1]);
    }
  }

  /** Adding two vectors lane by lane adds their lane sums. */
  lemma {:induction false} LaneSumOfAdd(x: seq<real>, y: seq<real>)
    requires |x| == |y|
    ensures LaneSum(LaneAdd(x, y)) == LaneSum(x) + LaneSum(y)
  {
    if x != [] {
      var n := |x| - 1;
      assert LaneAdd(x, y)[..n] == LaneAdd(x[..n], y[..n]);
      LaneSumOfAdd(x[..n], y[..n]);
    }
  }

  /** The lane products of a chunk sum to the dot product over that chunk. */
  lemma {:induction false} LaneSumOfChunk(a: seq<real>, b: seq<real>, i: int, n: int)
    requires 0 <= i && 0 <= n && i + n <= |a| && i + n <= |b|
    ensures LaneSum(LaneMul(a[i..i + n], b[i..i + n])) == DotRange(a, b, i, i + n)
  {
    if n > 0 {
      LaneSumOfChunk(a, b, i, n - 1);
      var v := LaneMul(a[i..i + n], b[i..i + n]);
      var u := LaneMul(a[i..i + n - 1], b[i..i + n - 1]);
      forall k | 0 <= k < n - 1
        ensures v[k] == u[k]
      {
      }
      assert v[..n - 1] == u;
    }
  }

  /** One pass of the chunk loop keeps "lane sum == dot product so far". */
  lemma ChunkStep(a: seq<real>, b: seq<real>, lanes: seq<real>, i: int, w: LaneWidth)
    requires 0 <= i && i + w <= |a| && i + w <= |b| && |lanes| == w
    requires LaneSum(lanes) == DotRange(a, b, 0, i)
    ensures LaneSum(LaneAdd(lanes, LaneMul(a[i..i + w], b[i..i + w]))) == DotRange(a, b, 0, i + w)
  {
    LaneSumOfAdd(lanes, LaneMul(a[i..i + w], b[i..i + w]));
    LaneSumOfChunk(a, b, i, w);
    DotRangeSplit(a, b, 0, i, i + w);
  }

  /** `calculateScalar`: a plain multiply-add loop over the first `length` elements. */
  method CalculateScalar(a: array<real>, b: array<real>, length: int) returns (sum: real)
    requires length <= a.Length && length <= b.Length
    ensures sum == Dot(a[..], b[..], length)
  {
    sum := 0.0;
    var i := 0;
    while i < length
      invariant 0 <= i <= if length < 0 then 0 else length
      invariant sum == DotRange(a[..], b[..], 0, i)
    {
      sum := sum + a[i] * b[i];
      i := i + 1;
    }
  }

  /**
   * `calculateVector`: whole chunks of `w` elements into a lane accumulator,
   * then the lane sum, then a scalar tail over the last `length % w` elements.
   * Over exact arithmetic it returns the same dot product as `CalculateScalar`.
   */
  method CalculateVector(a: array<real>, b: array<real>, length: int, w: LaneWidth) returns (sum: real)
    requires length <= a.Length && length <= b.Length
    ensures sum == Dot(a[..], b[..], length)
  {
    ghost var A, B := a[..], b[..];
    var lanes := ZeroLanes(w);
    var upperBound := LoopBound(length, w);
    var i := 0;
    while i < upperBound
      invariant 0 <= i <= if upperBound < 0 then 0 else upperBound
      invariant i % w == 0
      invariant |lanes| == w
      invariant LaneSum(lanes) == DotRange(A, B, 0, i)
    {
      NextMultipleFits(i, upperBound, w);
      var va := a[i..i + w];
      var vb := b[i..i + w];
      assert va == A[i..i + w] && vb == B[i..i + w];
      ChunkStep(A, B, lanes, i, w);
      StepKeepsMultiple(i, w);
      lanes := LaneAdd(lanes, LaneMul(va, vb));
      i := i + w;
    }
    sum := LaneSum(lanes);
    while i < length
      invariant 0 <= i <= if length < 0 then 0 else length
      invariant sum == DotRange(A, B, 0, i)
    {
      sum := sum + a[i] * b[i];
      i := i + 1;
    }
  }

  /**
   * Every index below `length` is handled exactly once: either inside a whole
   * chunk that ends at or before `loopBound`, at lane `j % w`, or by the tail,
   * which is shorter than one chunk.
   */
  lemma IndexCoverage(length: int, w: LaneWidth, j: int)
    requires 0 <= j < length
    ensures var u := LoopBound(length, w);
      && (j < u ==> (j / w) * w + j % w == j && (j / w) * w + w <= u)
      && (j >= u ==> u <= j < length < u + w)
  {
    var u := LoopBound(length, w);
    if j < u {
      var q := j / w;
      var s := q * w;
      assert j == s + j % w;
      MultipleMod(q, w);
      NextMultipleFits(s, u, w);
    }
  }
}
