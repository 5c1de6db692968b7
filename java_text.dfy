/**
 * `Integer.parseInt` and `Integer.toString` over ASCII decimal text: an
 * optional sign followed by at least one digit, rejected when the value
 * does not fit a 32-bit `int`.
 */
module JavaText {
  import opened Wrappers
  import opened JavaInt

  predicate IsDigit(c: char)
  {
    '0' <= c <= '9'
  }

  predicate AllDigits(s: string)
  {
    forall i :: 0 <= i < |s| ==> IsDigit(s[i])
  }

  function DigitValue(c: char): (d: nat)
    requires IsDigit(c)
    ensures d < 10
  {
    c as int - '0' as int
  }

  function DigitChar(d: nat): (c: char)
    requires d < 10
    ensures IsDigit(c) && DigitValue(c) == d
  {
    ('0' as int + d) as char
  }

  /** The number a string of decimal digits denotes. */
  function DigitsValue(s: string): nat
    requires AllDigits(s)
  {
    if s == [] then 0 else DigitsValue(s[..|s| - 1]) * 10 + DigitValue(s[|s| - 1])
  }

  /** The shortest decimal digits of `n`. */
  function NatToString(n: nat): (s: string)
    ensures |s| > 0 && AllDigits(s)
    ensures DigitsValue(s) == n
  {
    if n < 10 then [DigitChar(n)]
    else
      var s := NatToString(n / 10) + [DigitChar(n % 10)];
      assert s[..|s| - 1] == NatToString(n / 10);
      s
  }

  /** `Integer.toString`: a minus sign for negative values, then the digits. */
  function IntToString(x: int): (s: string)
    ensures |s| > 0
    ensures x < 0 <==> s[0] == '-'
  {
    if x < 0 then "-" + NatToString(-x) else NatToString(x)
  }

  /** `Integer.parseInt(s)`: `None` stands for the `NumberFormatException`. */
  function ParseInt(s: string): (r: Option<Int32>)
    ensures r.Some? ==> |s| > 0 && forall i :: 1 <= i < |s| ==> IsDigit(s[i])
    ensures r.Some? && r.value < 0 ==> s[0] == '-'
  {
    if |s| == 0 then None
    else
      var body := if s[0] == '-' || s[0] == '+' then s[1..] else s;
      if |body| == 0 || !AllDigits(body) then None
      else
        var n: int := DigitsValue(body);
        var v := if s[0] == '-' then -n else n;
        if InInt32(v) then Some(v) else None
  }

  /**
   * Every `int` printed by `Integer.toString` parses back to itself, and a
   * printed value outside the `int` range is rejected.
   */
  lemma ParseIntOfToString(x: int)
    ensures ParseInt(IntToString(x)) == if InInt32(x) then Some(x) else None
  {
    var s := IntToString(x);
    if x < 0 {
      assert s[1..] == NatToString(-x);
    } else {
      assert IsDigit(s[0]);
    }
  }

  /** Text that is not an optional sign followed by digits is rejected. */
  lemma ParseIntRejects()
    ensures ParseInt("") == None
    ensures ParseInt("-") == None && ParseInt("+") == None
    ensures ParseInt("10m") == None
    ensures ParseInt("--5") == None
  {
    assert !IsDigit("10m"[2]);
    assert !IsDigit("--5"[1..][0]);
  }

  /** A leading plus sign or leading zeros are accepted. */
  lemma ParseIntAccepts()
    ensures ParseInt("600") == Some(600)
    ensures ParseInt("+30") == Some(30)
    ensures ParseInt("-007") == Some(-7)
  {
    assert "600"[..2] == "60" && "60"[..1] == "6" && "6"[..0] == "";
    assert DigitsValue("6") == 6 && DigitsValue("60") == 60;
    assert "+30"[1..] == "30" && "30"[..1] == "3";
    assert "-007"[1..] == "007" && "007"[..2] == "00" && "00"[..1] == "0";
  }
}
