/** Kotlin's 32-bit `Int`: wrap-around arithmetic, the truncated remainder of `%`,
    `Int.toString` and `String.toInt`. */
module KotlinInt {
  import opened Wrappers

  const MinInt: int := -0x8000_0000
  const MaxInt: int := 0x7fff_ffff
  const Modulus: int := 0x1_0000_0000

  type Int32 = x: int | MinInt <= x <= MaxInt

  /** Two's-complement wrap-around of an unbounded integer into 32 bits. */
  function Wrap(x: int): (r: Int32)
    ensures (r - x) % Modulus == 0
    ensures MinInt <= x <= MaxInt ==> r == x
  {
    var k := (x - MinInt) % Modulus;
    assert x - MinInt == (x - MinInt) / Modulus * Modulus + k;
    k + MinInt
  }

  function Plus(a: Int32, b: Int32): Int32 { Wrap(a + b) }
  function Minus(a: Int32, b: Int32): Int32 { Wrap(a - b) }
  function Times(a: Int32, b: Int32): Int32 { Wrap(a * b) }
  function Negate(a: Int32): Int32 { Wrap(-(a as int)) }

  function Abs(x: int): nat { if x < 0 then -x else x }

  /** The quotient rounded toward zero, before any wrap-around; it is the partner of
      `Rem` below. */
  function Quot(a: Int32, b: Int32): int
    requires b != 0
  {
    var q := Abs(a) / Abs(b);
    if (a < 0) == (b < 0) then q else -q
  }

  /** Kotlin's `%` on `Int`: the remainder of the truncated division, whose sign is
      the dividend's. */
  function Rem(a: Int32, b: Int32): (r: Int32)
    requires b != 0
    ensures Abs(r) < Abs(b)
    ensures r == 0 || (r < 0 <==> a < 0)
  {
    var m := Abs(a) % Abs(b);
    if a < 0 then -m else m
  }

  /** The remainder completes the truncated division: `a == Quot(a, b) * b + Rem(a, b)`. */
  lemma RemCompletesQuot(a: Int32, b: Int32)
    requires b != 0
    ensures a == Quot(a, b) * b + Rem(a, b)
  {
    var A: int, B: int := Abs(a), Abs(b);
    assert A == (A / B) * B + A % B;
    if a < 0 && b < 0 {
      assert Quot(a, b) * b == (A / B) * (-B);
    } else if a < 0 {
      assert Quot(a, b) * b == -(A / B) * B;
    } else if b < 0 {
      assert Quot(a, b) * b == -(A / B) * (-B);
    }
  }

  // ---------------------------------------------------------------- decimal text

  predicate IsDigit(c: char) { '0' <= c <= '9' }

  predicate AllDigits(s: string) { forall i :: 0 <= i < |s| ==> IsDigit(s[i]) }

  function DigitChar(d: nat): (c: char)
    requires d < 10
    ensures IsDigit(c)
  {
    "0123456789"[d]
  }

  function DigitValue(c: char): (d: nat)
    requires IsDigit(c)
    ensures d < 10
  {
    (c as int) - ('0' as int)
  }

  /** The digits of a natural number, most significant first, without leading zeros. */
  function Digits(n: nat): (s: string)
    ensures |s| > 0
    ensures forall i :: 0 <= i < |s| ==> IsDigit(s[i])
    decreases n
  {
    if n < 10 then [DigitChar(n)] else Digits(n / 10) + [DigitChar(n % 10)]
  }

  /** The number a string of digits denotes. */
  function DigitsValue(s: string): nat
    requires forall i :: 0 <= i < |s| ==> IsDigit(s[i])
    decreases |s|
  {
    if s == [] then 0 else DigitsValue(s[..|s| - 1]) * 10 + DigitValue(s[|s| - 1])
  }

  lemma {:induction false} DigitsRoundTrip(n: nat)
    ensures DigitsValue(Digits(n)) == n
    decreases n
  {
    var s := Digits(n);
    if n >= 10 {
      DigitsRoundTrip(n / 10);
      assert s[..|s| - 1] == Digits(n / 10);
      assert DigitValue(DigitChar(n % 10)) == n % 10;
    } else {
      assert DigitValue(DigitChar(n)) == n;
    }
  }

  /** `Int.toString`: an optional minus sign followed by the digits. */
  function Text(n: int): string
  {
    if n < 0 then "-" + Digits(-n) else Digits(n)
  }

  /** `String.toInt` for ASCII text: an optional sign, then at least one digit, and
      the number must fit in 32 bits; anything else is a NumberFormatException. */
  function ParseInt(s: string): (r: Outcome<Int32>)
    ensures r.Ok? ==> |s| > 0
  {
    if s == [] then Fail(NumberFormat)
    else
      var negative := s[0] == '-';
      var digits := if s[0] == '-' || s[0] == '+' then s[1..] else s;
      if digits == [] || !AllDigits(digits) then Fail(NumberFormat)
      else
        var magnitude := DigitsValue(digits);
        var value: int := if negative then -(magnitude as int) else magnitude;
        if MinInt <= value <= MaxInt then Ok(value) else Fail(NumberFormat)
  }

  lemma ParseUnsigned(d: string)
    requires |d| > 0 && AllDigits(d) && DigitsValue(d) <= MaxInt
    ensures ParseInt(d) == Ok(DigitsValue(d))
  {
    assert IsDigit(d[0]);
  }

  lemma ParseNegative(d: string)
    requires |d| > 0 && AllDigits(d) && DigitsValue(d) <= -MinInt
    ensures ParseInt("-" + d) == Ok(-(DigitsValue(d) as int))
  {
    var s := "-" + d;
    assert s[0] == '-' && s[1..] == d;
  }

  /** Every 32-bit integer survives `toString` followed by `toInt`. */
  lemma TextRoundTrip(n: Int32)
    ensures ParseInt(Text(n)) == Ok(n)
  {
    if n < 0 {
      var m: nat := -(n as int);
      DigitsRoundTrip(m);
      ParseNegative(Digits(m));
    } else {
      DigitsRoundTrip(n);
      ParseUnsigned(Digits(n));
    }
  }

  /** Text without a single digit is never a number. */
  lemma ParseIntRejectsSignOnly(s: string)
    requires s == "-" || s == "+" || s == ""
    ensures ParseInt(s) == Fail(NumberFormat)
  {
  }
}
