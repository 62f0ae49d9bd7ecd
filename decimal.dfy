/** Kotlin's 32-bit `Int`, `Int.toString()` and `String.toInt()`. */
module Decimal {
  import opened Wrappers

  const IntMin: int := -0x8000_0000
  const IntMax: int := 0x7fff_ffff

  /** True when `n` fits a Kotlin `Int`. */
  predicate IsInt(n: int) {
    IntMin <= n <= IntMax
  }

  /** `n += 1` on a Kotlin `Int`: wraps from the largest value to the smallest. */
  function WrapIncrement(n: int): int {
    if n == IntMax then IntMin else n + 1
  }

  lemma WrapIncrementStaysInt(n: int)
    requires IsInt(n)
    ensures IsInt(WrapIncrement(n))
    ensures n < IntMax ==> WrapIncrement(n) == n + 1
  {
  }

  predicate IsDigit(c: char) {
    '0' <= c <= '9'
  }

  predicate AllDigits(s: string) {
    forall k :: 0 <= k < |s| ==> IsDigit(s[k])
  }

  function DigitChar(d: nat): (c: char)
    requires d < 10
    ensures IsDigit(c)
  {
    ('0' as int + d) as char
  }

  function DigitValue(c: char): (d: nat)
    requires IsDigit(c)
    ensures d < 10
  {
    c as int - '0' as int
  }

  /** The decimal digits of `n`, most significant first, with no leading zero. */
  function NatDigits(n: nat): (s: string)
    ensures |s| > 0 && AllDigits(s)
    ensures n > 0 ==> s[0] != '0'
    decreases n
  {
    if n < 10 then [DigitChar(n)] else NatDigits(n / 10) + [DigitChar(n % 10)]
  }

  /** The number a string of decimal digits denotes. */
  function DigitsValue(s: string): nat
    requires AllDigits(s)
    decreases |s|
  {
    if s == [] then 0 else DigitsValue(s[..|s| - 1]) * 10 + DigitValue(s[|s| - 1])
  }

  lemma {:induction false} DigitsValueOfNatDigits(n: nat)
    ensures DigitsValue(NatDigits(n)) == n
    decreases n
  {
    if n >= 10 {
      var s := NatDigits(n);
      assert s[..|s| - 1] == NatDigits(n / 10);
      DigitsValueOfNatDigits(n / 10);
    }
  }

  /**
   * `Int.toString()`: a leading '-' exactly for negative numbers, then the
   * decimal digits of the magnitude, with no leading zero except in "0".
   */
  function IntToString(n: int): (s: string)
    ensures |s| > 0 && (s[0] == '-' <==> n < 0)
    ensures n >= 0 ==> AllDigits(s) && DigitsValue(s) == n
    ensures n < 0 ==> AllDigits(s[1..]) && DigitsValue(s[1..]) == -n
    ensures n != 0 ==> s[if n < 0 then 1 else 0] != '0'
  {
    var d := NatDigits(if n < 0 then -n else n);
    DigitsValueOfNatDigits(if n < 0 then -n else n);
    assert IsDigit(d[0]);
    if n < 0 then
      assert ("-" + d)[1..] == d;
      "-" + d
    else d
  }

  function InRange(v: int): (r: Option<int>)
    ensures r.Some? ==> IsInt(r.value)
  {
    if IsInt(v) then Some(v) else None
  }

  /**
   * `String.toInt()`, with `None` where Kotlin throws NumberFormatException:
   * an optional '+' or '-' followed by at least one decimal digit, and the
   * value must fit an `Int`.
   */
  function ParseInt(s: string): (r: Option<int>)
    ensures r.Some? ==> IsInt(r.value)
  {
    if |s| == 0 then None
    else if s[0] == '-' || s[0] == '+' then
      if |s| == 1 || !AllDigits(s[1..]) then None
      else InRange(if s[0] == '-' then -(DigitsValue(s[1..]) as int) else DigitsValue(s[1..]))
    else if AllDigits(s) then InRange(DigitsValue(s))
    else None
  }

  /** Reading back what `Int.toString()` wrote gives the same `Int`. */
  lemma ParseIntToString(n: int)
    requires IsInt(n)
    ensures ParseInt(IntToString(n)) == Some(n)
  {
    var m: nat := if n < 0 then -n else n;
    DigitsValueOfNatDigits(m);
    var d := NatDigits(m);
    if n < 0 {
      assert IntToString(n)[1..] == d;
    } else {
      assert IsDigit(d[0]);
    }
  }

  /** A character that is neither a digit nor a leading sign makes the text a failure, never a number. */
  lemma ParseIntRejectsNonDigits(s: string, k: nat)
    requires k < |s| && !IsDigit(s[k])
    requires k > 0 || (s[0] != '-' && s[0] != '+')
    ensures ParseInt(s) == None
  {
    if s[0] == '-' || s[0] == '+' {
      assert !IsDigit(s[1..][k - 1]);
    }
  }
}
