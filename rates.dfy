/**
 * The derived benchmark metrics: requests per second from a request count
 * and an elapsed time in nanoseconds, compute throughput in GigaOps (two
 * floating-point operations, a multiply and an add, per data element), and
 * bytes shown as megabytes.
 */
module Rates {

  const NanosPerSecond: real := 1_000_000_000.0
  const OpsPerElement: real := 2.0
  const BytesPerMb: real := 1_048_576.0

  /** `count / (ns / 1e9)`: requests completed per second of a burst that took `ns` nanoseconds. */
  function Rate(count: int, ns: int): (r: real)
    requires ns > 0
    ensures r * (ns as real / NanosPerSecond) == count as real
    ensures count >= 0 ==> r >= 0.0
  {
    count as real / (ns as real / NanosPerSecond)
  }

  /** `(reqPerSec * dataSize * 2) / 1e9`: billions of multiply-add operations per second. */
  function GigaOps(reqPerSec: real, dataSize: int): (g: real)
    ensures g * NanosPerSecond == OpsPerElement * reqPerSec * dataSize as real
    ensures reqPerSec >= 0.0 && dataSize >= 0 ==> g >= 0.0
  {
    (reqPerSec * dataSize as real * OpsPerElement) / NanosPerSecond
  }

  /** `bytes / (1024.0 * 1024.0)`. */
  function BytesToMb(bytes: int): (mb: real)
    ensures mb * BytesPerMb == bytes as real
  {
    bytes as real / BytesPerMb
  }

  /**
   * Read together, the two formulas say that GigaOps is the number of
   * arithmetic operations done per nanosecond: 2 * count * dataSize / ns.
   */
  lemma GigaOpsIsOpsPerNanosecond(count: int, dataSize: int, ns: int)
    requires ns > 0
    ensures GigaOps(Rate(count, ns), dataSize) * ns as real
            == OpsPerElement * count as real * dataSize as real
  {
    var r := Rate(count, ns);
    var secs := ns as real / NanosPerSecond;
    var g := GigaOps(r, dataSize);
    calc {
      g * ns as real;
      g * NanosPerSecond * secs;
      OpsPerElement * r * dataSize as real * secs;
      OpsPerElement * (r * secs) * dataSize as real;
      OpsPerElement * count as real * dataSize as real;
    }
  }

  /** For a fixed request count, a burst that takes longer has no higher rate. */
  lemma RateFallsWithTime(count: int, ns1: int, ns2: int)
    requires count >= 0 && 0 < ns1 <= ns2
    ensures Rate(count, ns2) <= Rate(count, ns1)
  {
    var r1, r2 := Rate(count, ns1), Rate(count, ns2);
    var s1, s2 := ns1 as real / NanosPerSecond, ns2 as real / NanosPerSecond;
    assert r1 * s1 == r2 * s2;
    if r2 > r1 {
      calc {
        r1 * s1;
        r2 * s2;
      >=
        r2 * s1;
      >
        r1 * s1;
      }
      assert false;
    }
  }

  /** A larger heap reading never shows as fewer megabytes. */
  lemma BytesToMbMonotone(b1: int, b2: int)
    requires b1 <= b2
    ensures BytesToMb(b1) <= BytesToMb(b2)
  {
  }

  /** 1_000 requests in half a second is 2_000 requests per second; at 1_000 floats that is 0.004 GigaOps. */
  lemma RateExample()
    ensures Rate(1_000, 500_000_000) == 2_000.0
    ensures GigaOps(2_000.0, 1_000) == 0.004
    ensures BytesToMb(3_145_728) == 3.0
  {
  }
}
