/**
 * The few pieces of Java and java.lang behaviour the service depends on:
 * the ranges of int and long, int division (which truncates toward zero),
 * Integer.parseInt / Integer.toString, and ASCII lower-casing.
 */
module JavaLang {
  import opened Wrappers

  const INT_MIN: int := -0x8000_0000
  const INT_MAX: int := 0x7fff_ffff
  const LONG_MIN: int := -0x8000_0000_0000_0000
  const LONG_MAX: int := 0x7fff_ffff_ffff_ffff

  predicate IsInt(n: int) { INT_MIN <= n <= INT_MAX }

  predicate IsLong(n: int) { LONG_MIN <= n <= LONG_MAX }

  /**
   * Java's `n / d` for a positive divisor: the quotient is rounded toward zero,
   * so the remainder has the sign of the dividend (Dafny's `/` is Euclidean
   * and rounds negative dividends down instead).
   */
  function Quot(n: int, d: int): (q: int)
    requires d > 0
    ensures n >= 0 ==> 0 <= n - q * d < d
    ensures n < 0 ==> -d < n - q * d <= 0
  {
    if n >= 0 then n / d else -((-n) / d)
  }

  predicate IsDigit(c: char) { '0' <= c <= '9' }

  predicate AllDigits(s: string) { forall i :: 0 <= i < |s| ==> IsDigit(s[i]) }

  /** The value of a string of decimal digits, most significant first. */
  function DigitsValue(s: string): nat
    requires AllDigits(s)
  {
    if s == [] then 0 else DigitsValue(s[..|s| - 1]) * 10 + (s[|s| - 1] as int - '0' as int)
  }

  /**
   * Integer.parseInt (and so Integer.valueOf): an optional '-' or '+', then at
   * least one decimal digit, with a value inside the int range. Anything else
   * raises NumberFormatException, which is None here.
   */
  function ParseInt(s: string): (r: Option<int>)
    ensures r.Some? ==> IsInt(r.value)
    ensures r.Some? ==> |s| > 0 && (IsDigit(s[0]) || s[0] == '-' || s[0] == '+')
  {
    var signed := |s| > 0 && (s[0] == '-' || s[0] == '+');
    var digits := if signed then s[1..] else s;
    if digits == [] || !AllDigits(digits) then None
    else
      var magnitude: int := DigitsValue(digits);
      var v := if signed && s[0] == '-' then -magnitude else magnitude;
      if IsInt(v) then Some(v) else None
  }

  function DigitChar(d: nat): char
    requires d < 10
  {
    ('0' as int + d) as char
  }

  /** The shortest decimal digits of a natural number. */
  function NaturalString(n: nat): (s: string)
    ensures |s| > 0 && AllDigits(s)
  {
    if n < 10 then [DigitChar(n)] else NaturalString(n / 10) + [DigitChar(n % 10)]
  }

  /** Integer.toString: the decimal digits, after a '-' for a negative number. */
  function IntString(n: int): (s: string)
  {
    if n < 0 then "-" + NaturalString(-n) else NaturalString(n)
  }

  lemma {:induction false} NaturalStringValue(n: nat)
    ensures DigitsValue(NaturalString(n)) == n
  {
    if n >= 10 {
      NaturalStringValue(n / 10);
      var s := NaturalString(n);
      assert s[..|s| - 1] == NaturalString(n / 10);
    }
  }

  /** Reading back what Integer.toString wrote gives the same int. */
  lemma ParseIntString(n: int)
    requires IsInt(n)
    ensures ParseInt(IntString(n)) == Some(n)
  {
    var s := IntString(n);
    if n < 0 {
      var digits := NaturalString(-n);
      NaturalStringValue(-n);
      assert s == "-" + digits;
      assert s[0] == '-' && s[1..] == digits;
      assert DigitsValue(s[1..]) == -n;
    } else {
      NaturalStringValue(n);
      assert IsDigit(s[0]);
      assert !(s[0] == '-' || s[0] == '+');
    }
  }

  function LowerChar(c: char): char
  {
    if 'A' <= c <= 'Z' then (c as int + 32) as char else c
  }

  /** String.toLowerCase restricted to ASCII letters. */
  function ToLowerAscii(s: string): (r: string)
    ensures |r| == |s|
    ensures forall i :: 0 <= i < |s| ==> r[i] == LowerChar(s[i])
  {
    seq(|s|, i requires 0 <= i < |s| => LowerChar(s[i]))
  }
}
