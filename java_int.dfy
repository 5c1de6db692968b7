/**
 * Java's 32-bit `int` arithmetic: the value range, two's-complement
 * wrap-around of `+` and `*`, and `/` and `%` that truncate toward zero
 * (Dafny's own `/` and `%` are Euclidean).
 */
module JavaInt {

  const IntMin: int := -0x8000_0000
  const IntMax: int := 0x7fff_ffff
  const Modulus: int := 0x1_0000_0000

  predicate InInt32(x: int) { IntMin <= x <= IntMax }

  type Int32 = x: int | IntMin <= x <= IntMax

  function Abs(x: int): nat { if x < 0 then -x else x }

  /** The `int` that a Java operation yields when its exact result is `x`. */
  function Wrap32(x: int): (r: Int32)
    ensures (x - r) % Modulus == 0
    ensures InInt32(x) ==> r == x
  {
    var m := x % Modulus;
    if m <= IntMax then m else m - Modulus
  }

  /** Java's `x / y`: the quotient rounded toward zero. */
  function JavaDiv(x: int, y: int): (q: int)
    requires y != 0
    ensures Abs(q) * Abs(y) <= Abs(x) < (Abs(q) + 1) * Abs(y)
    ensures q != 0 ==> ((q > 0) <==> ((x > 0) == (y > 0)))
  {
    var n := Abs(x) / Abs(y);
    DivBounds(Abs(x), Abs(y));
    if (x >= 0) == (y > 0) then n else -n
  }

  /** Euclidean division of naturals brackets the dividend between two multiples. */
  lemma DivBounds(n: nat, d: nat)
    requires d > 0
    ensures (n / d) * d <= n < (n / d + 1) * d
  {
    var k := n / d;
    assert n == k * d + n % d;
    assert (k + 1) * d == k * d + d;
  }

  /** Java's `x % y`: the remainder takes the sign of the dividend. */
  function JavaRem(x: int, y: int): (r: int)
    requires y != 0
    ensures x == JavaDiv(x, y) * y + r
    ensures Abs(r) < Abs(y)
    ensures x >= 0 ==> r >= 0
    ensures x <= 0 ==> r <= 0
  {
    if x >= 0 then x % Abs(y) else -((-x) % Abs(y))
  }
}
