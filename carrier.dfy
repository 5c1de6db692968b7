/**
 * module3/DeepDiveVirtualThreads.java, `extractCarrier`: the name of the
 * carrier thread is whatever follows the last '@' in a virtual thread's
 * `toString()`.
 */
module Carrier {

  const Fallback: string := "Unknown-Carrier (String format might have changed)"

  /** `s.lastIndexOf(c)`: the last position holding `c`, or -1 when there is none. */
  function LastIndexOf(s: string, c: char): (i: int)
    ensures -1 <= i < |s|
    ensures i == -1 <==> c !in s
    ensures i >= 0 ==> s[i] == c && c !in s[i + 1..]
  {
    if s == [] then -1
    else if s[|s| - 1] == c then |s| - 1
    else
      var i := LastIndexOf(s[..|s| - 1], c);
      assert s == s[..|s| - 1] + [s[|s| - 1]];
      assert i >= 0 ==> s[i + 1..] == s[..|s| - 1][i + 1..] + [s[|s| - 1]];
      i
  }

  /** `extractCarrier`: the text after the last '@', or the fallback message. */
  function ExtractCarrier(threadString: string): (r: string)
    ensures '@' !in threadString ==> r == Fallback
    ensures '@' in threadString ==>
      '@' !in r && |r| < |threadString| && threadString[|threadString| - |r| - 1..] == "@" + r
  {
    var atIndex := LastIndexOf(threadString, '@');
    if atIndex != -1 then threadString[atIndex + 1..] else Fallback
  }

  /**
   * With an '@' present the input splits as `prefix + "@" + carrier`, and the
   * carrier holds no further '@'.
   */
  lemma CarrierFollowsLastAt(s: string)
    requires '@' in s
    ensures '@' !in ExtractCarrier(s)
    ensures exists prefix :: s == prefix + "@" + ExtractCarrier(s)
  {
    var i := LastIndexOf(s, '@');
    assert s == s[..i] + "@" + s[i + 1..];
  }

  /** The carrier is exactly the '@'-free tail after a split: the split is unique. */
  lemma CarrierOfSplit(prefix: string, carrier: string)
    requires '@' !in carrier
    ensures ExtractCarrier(prefix + "@" + carrier) == carrier
  {
    var s := prefix + "@" + carrier;
    var i := LastIndexOf(s, '@');
    assert s[|prefix|] == '@';
    assert s[|prefix| + 1..] == carrier;
  }

  /** A string ending in '@' names an empty carrier. */
  lemma TrailingAtGivesEmpty(prefix: string)
    ensures ExtractCarrier(prefix + "@") == ""
  {
    CarrierOfSplit(prefix, "");
    assert prefix + "@" + "" == prefix + "@";
  }

  /** Without an '@' the fallback message comes back. */
  lemma NoAtGivesFallback(s: string)
    requires '@' !in s
    ensures ExtractCarrier(s) == Fallback
  {
  }

  /** The format the demo expects from `Thread.currentThread().toString()`. */
  lemma VirtualThreadExample()
    ensures ExtractCarrier(ExampleThread) == "ForkJoinPool-1-worker-1"
  {
    ExampleThreadSplits();
    CarrierOfSplit("VirtualThread[#21]/runnable", "ForkJoinPool-1-worker-1");
  }

  const ExampleThread: string := "VirtualThread[#21]/runnable@ForkJoinPool-1-worker-1"

  lemma ExampleThreadSplits()
    ensures ExampleThread == "VirtualThread[#21]/runnable" + "@" + "ForkJoinPool-1-worker-1"
    ensures '@' !in "ForkJoinPool-1-worker-1"
  {
  }
}
