/**
 * module1/JITDemo.java, `performCalculation`: a hot loop adding up
 * `(input * j) % 13` for `j` in [0, 1000) on Java `int`s, where the product
 * wraps around and `%` keeps the sign of the (wrapped) product.
 */
module JitDemo {
  import opened JavaInt

  const Rounds: nat := 1000
  const Divisor: int := 13
  /** `main` calls `performCalculation(i)` for `i` in [0, MainCalls). */
  const MainCalls: nat := 50_000

  /** One term of the loop: `(input * j) % 13` with Java's `*` and `%`. */
  function Term(input: Int32, j: nat): (t: int)
    ensures -12 <= t <= 12
    ensures InInt32(input * j) ==> t == JavaRem(input * j, Divisor)
  {
    JavaRem(Wrap32(input * j), Divisor)
  }

  /** The terms for `j` in [0, n), summed exactly. */
  function CalcSum(input: Int32, n: nat): (s: int)
    ensures -12 * n <= s <= 12 * n
  {
    if n == 0 then 0 else CalcSum(input, n - 1) + Term(input, n - 1)
  }

  /** The reference sum: Σ (input·j) mod 13 with no machine arithmetic at all. */
  function ExactSum(input: int, n: nat): int
  {
    if n == 0 then 0 else ExactSum(input, n - 1) + (input * (n - 1)) % Divisor
  }

  /**
   * `performCalculation`: `result += term` on an `int` for 1000 rounds. The
   * accumulator never wraps, so the result is the exact sum of the terms.
   */
  method PerformCalculation(input: Int32) returns (result: Int32)
    ensures result == CalcSum(input, Rounds)
  {
    result := 0;
    var j := 0;
    while j < Rounds
      invariant 0 <= j <= Rounds
      invariant result == CalcSum(input, j)
    {
      result := Wrap32(result + Term(input, j));
      j := j + 1;
    }
  }

  /** `a * b` grows with `b` for non-negative `a`. */
  lemma MulGrows(a: nat, b: nat, c: nat)
    requires b <= c
    ensures a * b <= a * c
  {
  }

  /**
   * For a non-negative input whose largest product fits an `int`, every
   * term is the mathematical remainder in [0, 12], so the result is the
   * reference sum and lies in [0, 12n].
   */
  lemma {:induction false} NonNegativeInputIsExact(input: Int32, n: nat)
    requires 0 <= input
    requires n > 0 ==> input * (n - 1) <= IntMax
    ensures CalcSum(input, n) == ExactSum(input, n)
    ensures 0 <= CalcSum(input, n) <= 12 * n
  {
    if n > 0 {
      if n > 1 {
        MulGrows(input, n - 2, n - 1);
      }
      NonNegativeInputIsExact(input, n - 1);
      TermOfNonNegative(input, n - 1);
    }
  }

  lemma TermOfNonNegative(input: Int32, j: nat)
    requires 0 <= input && input * j <= IntMax
    ensures Term(input, j) == (input * j) % Divisor
  {
    var p := input * j;
    assert 0 <= p;
    assert Wrap32(p) == p;
  }

  /**
   * A multiple of 13 contributes 0 in every round as long as no product
   * wraps; input 0 is the simplest case.
   */
  lemma {:induction false} MultipleOfThirteenSumsToZero(input: Int32, n: nat)
    requires input % Divisor == 0
    requires n > 0 ==> Abs(input) * (n - 1) <= IntMax
    ensures CalcSum(input, n) == 0
  {
    if n > 0 {
      if n > 1 {
        MulGrows(Abs(input), n - 2, n - 1);
      }
      MultipleOfThirteenSumsToZero(input, n - 1);
      ProductFits(input, n - 1);
      MultipleTimes(input, n - 1);
      RemOfMultiple(input * (n - 1));
    }
  }

  lemma ProductFits(x: int, m: nat)
    requires Abs(x) * m <= IntMax
    ensures InInt32(x * m)
  {
    if x < 0 {
      assert x * m == -(Abs(x) * m);
    }
  }

  lemma MultipleTimes(x: int, m: int)
    requires x % Divisor == 0
    ensures (x * m) % Divisor == 0
  {
    var k := x / Divisor;
    assert x == k * Divisor;
    assert x * m == (k * m) * Divisor;
  }

  lemma RemOfMultiple(p: int)
    requires p % Divisor == 0
    ensures JavaRem(p, Divisor) == 0
  {
    if p < 0 {
      MultipleTimes(p, -1);
    }
  }

  /** Input 0 yields 0 whatever the number of rounds. */
  lemma ZeroInputYieldsZero(n: nat)
    ensures CalcSum(0, n) == 0
  {
    MultipleOfThirteenSumsToZero(0, n);
  }

  /**
   * Every input `main` passes, 0..49999, stays clear of overflow
   * (49999 * 999 < 2^31), so its result is the reference sum, in [0, 12000].
   */
  lemma MainInputsNeverOverflow(input: Int32)
    requires 0 <= input < MainCalls
    ensures CalcSum(input, Rounds) == ExactSum(input, Rounds)
    ensures 0 <= CalcSum(input, Rounds) <= 12_000
  {
    MulGrows(Rounds - 1, input, MainCalls - 1);
    assert (MainCalls - 1) * (Rounds - 1) <= IntMax;
    NonNegativeInputIsExact(input, Rounds);
  }
}
