/**
 * The order in which the sweeps visit their configurations: an outer loop
 * over data sizes and an inner loop over concurrency levels, so the list of
 * (dataSize, concurrency) pairs is data-major.
 */
module SweepOrder {

  /** The pairs the inner loop visits for one data size. */
  function RowPairs(d: int, cs: seq<int>): (r: seq<(int, int)>)
    ensures |r| == |cs|
    ensures forall i :: 0 <= i < |cs| ==> r[i] == (d, cs[i])
  {
    if cs == [] then [] else RowPairs(d, cs[..|cs| - 1]) + [(d, cs[|cs| - 1])]
  }

  /** Every pair the two nested loops visit, in visiting order: one per combination. */
  function Pairs(ds: seq<int>, cs: seq<int>): (r: seq<(int, int)>)
    ensures |r| == |ds| * |cs|
  {
    if ds == [] then []
    else
      assert |ds| * |cs| == (|ds| - 1) * |cs| + |cs|;
      Pairs(ds[..|ds| - 1], cs) + RowPairs(ds[|ds| - 1], cs)
  }

  /** The pair of data size `ds[di]` with concurrency `cs[ci]` sits at position `di * |cs| + ci`. */
  lemma {:induction false} PairsAt(ds: seq<int>, cs: seq<int>, di: int, ci: int)
    requires 0 <= di < |ds| && 0 <= ci < |cs|
    ensures 0 <= di * |cs| + ci < |Pairs(ds, cs)|
    ensures Pairs(ds, cs)[di * |cs| + ci] == (ds[di], cs[ci])
  {
    var n, w := |ds|, |cs|;
    var init := ds[..n - 1];
    assert Pairs(ds, cs) == Pairs(init, cs) + RowPairs(ds[n - 1], cs);
    if di == n - 1 {
      assert di * w + ci == |Pairs(init, cs)| + ci;
    } else {
      PairsAt(init, cs, di, ci);
      IndexInPrefix(di, ci, n - 1, w);
    }
  }

  /** Position `di * w + ci` of a row-major grid with `m` rows of width `w` lies inside it. */
  lemma IndexInPrefix(di: int, ci: int, m: int, w: int)
    requires 0 <= di < m && 0 <= ci < w
    ensures di * w + ci < m * w
  {
    MulLeft(di + 1, m, w);
    assert (di + 1) * w == di * w + w;
  }

  lemma MulLeft(a: int, b: int, c: nat)
    requires a <= b
    ensures a * c <= b * c
  {
  }
}
