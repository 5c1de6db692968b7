/**
 * module4/VectorDemo.java: element-wise addition of two `int` arrays into a
 * third, once with a plain loop and once in chunks of W lanes followed by a
 * scalar tail. Java `int` addition wraps around at 32 bits, in the lanes as
 * well as in the scalar loop.
 */
module VectorDemo {
  import opened JavaInt
  import opened Kernels

  /** `a + b` on Java `int`s. */
  function WrapAdd(x: Int32, y: Int32): (r: Int32)
    ensures InInt32(x + y) ==> r == x + y
  {
    Wrap32(x + y)
  }

  /** The element-wise sums of the first `|a|` elements. */
  function AddAll(a: seq<Int32>, b: seq<Int32>): (r: seq<Int32>)
    requires |b| >= |a|
    ensures |r| == |a|
    ensures forall k :: 0 <= k < |a| ==> r[k] == WrapAdd(a[k], b[k])
  {
    seq(|a|, k requires 0 <= k < |a| => WrapAdd(a[k], b[k]))
  }

  /** `scalarAdd`: `res[i] = a[i] + b[i]` for every index of `a`, nothing else written. */
  method ScalarAdd(a: array<Int32>, b: array<Int32>, res: array<Int32>)
    requires b.Length >= a.Length && res.Length >= a.Length
    modifies res
    ensures res[..a.Length] == AddAll(old(a[..]), old(b[..]))
    ensures res[a.Length..] == old(res[a.Length..])
  {
    var i := 0;
    while i < a.Length
      invariant 0 <= i <= a.Length
      invariant forall k :: 0 <= k < i ==> res[k] == WrapAdd(old(a[k]), old(b[k]))
      invariant forall k :: i <= k < res.Length ==> res[k] == old(res[k])
      invariant forall k :: i <= k < a.Length ==> a[k] == old(a[k]) && b[k] == old(b[k])
    {
      res[i] := WrapAdd(a[i], b[i]);
      i := i + 1;
    }
  }

  /**
   * `vectorAdd`: whole chunks of `w` lanes up to `loopBound(a.length)`, each
   * loaded from `a` and `b` before it is stored into `res`, then the tail one
   * element at a time. The result is the one `ScalarAdd` gives, also when
   * `res` is `a` or `b`.
   */
  method VectorAdd(a: array<Int32>, b: array<Int32>, res: array<Int32>, w: LaneWidth)
    requires b.Length >= a.Length && res.Length >= a.Length
    modifies res
    ensures res[..a.Length] == AddAll(old(a[..]), old(b[..]))
    ensures res[a.Length..] == old(res[a.Length..])
  {
    var i := 0;
    var upperBound := LoopBound(a.Length, w);
    while i < upperBound
      invariant 0 <= i <= upperBound
      invariant i % w == 0
      invariant forall k :: 0 <= k < i ==> res[k] == WrapAdd(old(a[k]), old(b[k]))
      invariant forall k :: i <= k < res.Length ==> res[k] == old(res[k])
      invariant forall k :: i <= k < a.Length ==> a[k] == old(a[k]) && b[k] == old(b[k])
    {
      NextMultipleFits(i, upperBound, w);
      StepKeepsMultiple(i, w);
      var va := a[i..i + w];
      var vb := b[i..i + w];
      forall k | i <= k < i + w {
        res[k] := WrapAdd(va[k - i], vb[k - i]);
      }
      i := i + w;
    }
    while i < a.Length
      invariant upperBound <= i <= a.Length
      invariant forall k :: 0 <= k < i ==> res[k] == WrapAdd(old(a[k]), old(b[k]))
      invariant forall k :: i <= k < res.Length ==> res[k] == old(res[k])
      invariant forall k :: i <= k < a.Length ==> a[k] == old(a[k]) && b[k] == old(b[k])
    {
      res[i] := WrapAdd(a[i], b[i]);
      i := i + 1;
    }
  }

  /**
   * `main`'s check: fresh result arrays filled by both methods compare equal
   * with `Arrays.equals`.
   */
  method CompareResults(a: array<Int32>, b: array<Int32>, w: LaneWidth) returns (matched: bool)
    requires b.Length >= a.Length
    ensures matched
  {
    var resultVector := new Int32[a.Length];
    var resultScalar := new Int32[a.Length];
    ScalarAdd(a, b, resultScalar);
    VectorAdd(a, b, resultVector, w);
    assert resultScalar[..] == resultScalar[..a.Length];
    assert resultVector[..] == resultVector[..a.Length];
    matched := resultScalar[..] == resultVector[..];
  }

  /**
   * The demo fills the arrays with `nextInt(100)`, values in [0, 100): then
   * no sum wraps and every element is the plain sum.
   */
  lemma SmallValuesAddExactly(a: seq<Int32>, b: seq<Int32>)
    requires |b| >= |a|
    requires forall k :: 0 <= k < |a| ==> 0 <= a[k] < 100 && 0 <= b[k] < 100
    ensures forall k :: 0 <= k < |a| ==> AddAll(a, b)[k] == a[k] + b[k] < 200
  {
  }

  /** Near the top of the range the addition wraps, as Java's does. */
  lemma AdditionWraps()
    ensures WrapAdd(IntMax, 1) == IntMin
  {
    assert (IntMax + 1 - IntMin) % Modulus == 0;
  }
}
