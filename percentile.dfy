/**
 * The 99th-percentile rule shared by the benchmarks: copy the latency
 * samples, sort them ascending and take the element at index
 * floor(0.99 * n), or 0 when there are no samples.
 */
module Percentile {

  predicate Sorted(s: seq<int>)
  {
    forall i, j :: 0 <= i < j < |s| ==> s[i] <= s[j]
  }

  /** Puts `x` into its place in a sorted list. */
  function Insert(x: int, s: seq<int>): (r: seq<int>)
    requires Sorted(s)
    ensures |r| == |s| + 1
    ensures Sorted(r)
    ensures multiset(r) == multiset(s) + multiset{x}
  {
    if s == [] then [x]
    else if x <= s[0] then [x] + s
    else
      var rest := Insert(x, s[1..]);
      InsertedAbove(x, s, rest);
      ConsSorted(s[0], rest);
      assert s == [s[0]] + s[1..];
      [s[0]] + rest
  }

  /** A head no larger than any element of a sorted tail keeps the list sorted. */
  lemma ConsSorted(h: int, rest: seq<int>)
    requires Sorted(rest)
    requires forall i :: 0 <= i < |rest| ==> h <= rest[i]
    ensures Sorted([h] + rest)
  {
  }

  /** Inserting `x` above the head of `s` leaves only elements no smaller than that head. */
  lemma InsertedAbove(x: int, s: seq<int>, rest: seq<int>)
    requires Sorted(s) && s != [] && s[0] < x
    requires multiset(rest) == multiset(s[1..]) + multiset{x}
    ensures forall i :: 0 <= i < |rest| ==> s[0] <= rest[i]
  {
    forall i | 0 <= i < |rest|
      ensures s[0] <= rest[i]
    {
      assert rest[i] in multiset(rest);
      if rest[i] != x {
        assert rest[i] in multiset(s[1..]);
        var k :| 0 <= k < |s[1..]| && s[1..][k] == rest[i];
        assert s[k + 1] == rest[i];
      }
    }
  }

  /** `Collections.sort`: an ascending permutation of the samples. */
  function SortAsc(s: seq<int>): (r: seq<int>)
    ensures |r| == |s|
    ensures Sorted(r)
    ensures multiset(r) == multiset(s)
  {
    if s == [] then []
    else
      assert s == s[..|s| - 1] + [s[|s| - 1]];
      Insert(s[|s| - 1], SortAsc(s[..|s| - 1]))
  }

  /** The index `(int) (n * 0.99)`, taken as floor(99 n / 100). */
  function P99Index(n: nat): (k: nat)
    ensures k * 100 <= 99 * n < (k + 1) * 100
    ensures n > 0 ==> k < n
  {
    (99 * n) / 100
  }

  /** The 99th-percentile sample, 0 when there are none. */
  function P99(samples: seq<int>): (p: int)
    ensures |samples| > 0 ==> exists i :: 0 <= i < |samples| && samples[i] == p
  {
    if |samples| == 0 then 0
    else
      var sorted := SortAsc(samples);
      assert sorted[P99Index(|samples|)] in multiset(sorted);
      sorted[P99Index(|samples|)]
  }

  /** A sorted list is fixed by its elements: there is one sorted order. */
  lemma {:induction false} SortedUnique(a: seq<int>, b: seq<int>)
    requires Sorted(a) && Sorted(b) && multiset(a) == multiset(b)
    ensures a == b
  {
    assert |a| == |b| by {
      assert |a| == |multiset(a)| == |multiset(b)| == |b|;
    }
    if |a| > 0 {
      assert a[0] == b[0] by {
        assert b[0] in multiset(b) && a[0] in multiset(a);
        SortedHeadIsMin(a, b[0]);
        SortedHeadIsMin(b, a[0]);
      }
      assert multiset(a[1..]) == multiset(b[1..]) by {
        TailMultiset(a);
        TailMultiset(b);
      }
      SortedTail(a);
      SortedTail(b);
      SortedUnique(a[1..], b[1..]);
      assert a == [a[0]] + a[1..];
      assert b == [b[0]] + b[1..];
    }
  }

  /** The head of a sorted list is no larger than anything in it. */
  lemma SortedHeadIsMin(a: seq<int>, x: int)
    requires Sorted(a) && x in multiset(a)
    ensures a[0] <= x
  {
    var k :| 0 <= k < |a| && a[k] == x;
  }

  lemma SortedTail(a: seq<int>)
    requires Sorted(a) && |a| > 0
    ensures Sorted(a[1..])
  {
  }

  lemma TailMultiset(a: seq<int>)
    requires |a| > 0
    ensures multiset(a[1..]) == multiset(a) - multiset{a[0]}
  {
    assert a == [a[0]] + a[1..];
    assert multiset(a) == multiset{a[0]} + multiset(a[1..]);
  }

  /** The percentile depends only on which samples there are, not on their arrival order. */
  lemma P99OrderIndependent(s: seq<int>, t: seq<int>)
    requires multiset(s) == multiset(t)
    ensures P99(s) == P99(t)
  {
    assert |s| == |multiset(s)| == |multiset(t)| == |t|;
    SortedUnique(SortAsc(s), SortAsc(t));
  }

  /** On an already sorted list no reordering happens: the result is `s[floor(0.99 n)]`. */
  lemma P99OfSorted(s: seq<int>)
    requires |s| > 0 && Sorted(s)
    ensures P99(s) == s[P99Index(|s|)]
  {
    SortedUnique(SortAsc(s), s);
  }

  /** A non-empty list's percentile is one of its samples, between the smallest and the largest. */
  lemma P99IsSample(s: seq<int>)
    requires |s| > 0
    ensures P99(s) in s
    ensures exists i :: 0 <= i < |s| && s[i] <= P99(s)
    ensures exists j :: 0 <= j < |s| && P99(s) <= s[j]
  {
    var t := SortAsc(s);
    var k := P99Index(|s|);
    assert |t| == |multiset(t)| == |multiset(s)| == |s|;
    assert t[k] in multiset(t);
    var i :| 0 <= i < |s| && s[i] == t[k];
  }

  /** Every sample below (above) some bound keeps the percentile below (above) it. */
  lemma P99Bounded(s: seq<int>, lo: int, hi: int)
    requires |s| > 0
    requires forall i :: 0 <= i < |s| ==> lo <= s[i] <= hi
    ensures lo <= P99(s) <= hi
  {
    P99IsSample(s);
  }

  /** Index 99 for 100 samples, 0 for one sample, 990 for a thousand. */
  lemma P99IndexExamples()
    ensures P99Index(100) == 99 && P99Index(1) == 0 && P99Index(1000) == 990
  {
  }

  /** 0 for no samples; the only sample of one. */
  lemma P99SmallExamples()
    ensures P99([]) == 0
    ensures P99([7]) == 7
  {
    assert SortAsc([7]) == [7];
  }

  /** Up to 100 samples, the index is the last one, so the percentile is the largest sample. */
  lemma P99OfFewIsMax(s: seq<int>)
    requires 0 < |s| <= 100
    ensures P99(s) in s
    ensures forall i :: 0 <= i < |s| ==> s[i] <= P99(s)
  {
    var t := SortAsc(s);
    P99IndexOfFew(|s|);
    P99IsSample(s);
    forall i | 0 <= i < |s|
      ensures s[i] <= t[|t| - 1]
    {
      assert s[i] in multiset(t);
      SortedLastIsMax(t, s[i]);
    }
  }

  lemma P99IndexOfFew(n: nat)
    requires 0 < n <= 100
    ensures P99Index(n) == n - 1
  {
  }

  lemma SortedLastIsMax(t: seq<int>, x: int)
    requires Sorted(t) && x in t
    ensures x <= t[|t| - 1]
  {
  }

  /** Three samples: the 99th percentile is the largest of them. */
  lemma P99Examples(s: seq<int>)
    requires s == [30, 10, 20]
    ensures P99(s) == 30
  {
    P99OfFewIsMax(s);
    assert s[0] == 30;
  }
}
