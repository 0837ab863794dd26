/**
 * Decimal text of 32-bit signed integers: Rust's `str::parse::<i32>()`,
 * which reads the route segment, and the `{}` rendering of an `i32`, which
 * writes the LIMIT clause. The two are proved to be inverse on the i32 range.
 */
module Decimal {
  import opened Wrappers

  const I32Min: int := -0x8000_0000
  const I32Max: int := 0x7fff_ffff

  predicate InI32(n: int) { I32Min <= n <= I32Max }

  predicate IsDigit(c: char) { '0' <= c <= '9' }

  predicate AllDigits(s: string) { forall i :: 0 <= i < |s| ==> IsDigit(s[i]) }

  function DigitValue(c: char): (d: nat)
    requires IsDigit(c)
    ensures d < 10
  {
    c as int - '0' as int
  }

  function DigitChar(d: nat): (c: char)
    requires d < 10
    ensures IsDigit(c) && DigitValue(c) == d
  {
    ('0' as int + d) as char
  }

  /** The value of a run of ASCII digits, most significant first; leading zeros are allowed. */
  function DigitsValue(s: string): (v: nat)
    requires AllDigits(s)
  {
    if s == [] then 0 else 10 * DigitsValue(s[..|s| - 1]) + DigitValue(s[|s| - 1])
  }

  /**
   * Rust's `i32::from_str`: an optional `+` or `-`, then at least one ASCII
   * digit and nothing else (no blanks); a value outside the i32 range is an
   * error, as is a sign with no digits after it. So an empty text, a lone
   * sign, a first character that is neither sign nor digit, and any later
   * non-digit are all rejected.
   */
  function ParseI32(s: string): (r: Option<int>)
    ensures r.Some? ==> InI32(r.value) && |s| > 0
    ensures r.Some? ==> r.value < 0 ==> s[0] == '-'
    ensures r.Some? ==> (IsDigit(s[0]) || (|s| > 1 && (s[0] == '+' || s[0] == '-'))) && AllDigits(s[1..])
  {
    if |s| == 0 then None
    else
      var digits := if s[0] == '+' || s[0] == '-' then s[1..] else s;
      if |digits| == 0 || !AllDigits(digits) then None
      else
        var magnitude: int := DigitsValue(digits);
        var v := if s[0] == '-' then -magnitude else magnitude;
        if InI32(v) then Some(v) else None
  }

  /** Shortest decimal digits of a natural number (no leading zeros). */
  function NatText(n: nat): (s: string)
  {
    if n < 10 then [DigitChar(n)] else NatText(n / 10) + [DigitChar(n % 10)]
  }

  /** Rust's `{}` for an integer: a `-` for negative values, then the digits of the magnitude. */
  function IntText(n: int): (s: string)
  {
    if n < 0 then "-" + NatText(-n) else NatText(n)
  }

  lemma {:induction false} NatTextDigits(n: nat)
    ensures |NatText(n)| > 0 && AllDigits(NatText(n))
    ensures DigitsValue(NatText(n)) == n
    ensures n > 0 ==> NatText(n)[0] != '0'
  {
    if n >= 10 {
      NatTextDigits(n / 10);
      var s := NatText(n);
      assert s[..|s| - 1] == NatText(n / 10);
    }
  }

  /** Parsing the text of any i32 gives back that i32. */
  lemma ParseIntText(n: int)
    requires InI32(n)
    ensures ParseI32(IntText(n)) == Some(n)
  {
    if n < 0 {
      NatTextDigits(-n);
      assert IntText(n)[1..] == NatText(-n);
    } else {
      NatTextDigits(n);
    }
  }

  /**
   * A run of digits, with or without a sign, parses to its value exactly
   * when that value is in the i32 range (so `+7` and `007` both give 7), and
   * is rejected otherwise.
   */
  lemma ParseDigits(s: string)
    requires |s| > 0 && AllDigits(s)
    ensures ParseI32(s) == if DigitsValue(s) <= I32Max then Some(DigitsValue(s)) else None
    ensures ParseI32("+" + s) == ParseI32(s)
    ensures ParseI32("-" + s) == if DigitsValue(s) <= -I32Min then Some(-(DigitsValue(s) as int)) else None
  {
    assert IsDigit(s[0]);
    ParseAfterSign('+', s);
    ParseAfterSign('-', s);
  }

  lemma ParseAfterSign(sign: char, s: string)
    requires sign == '+' || sign == '-'
    requires |s| > 0 && AllDigits(s)
    ensures ParseI32([sign] + s) ==
      var v := if sign == '-' then -(DigitsValue(s) as int) else DigitsValue(s);
      if InI32(v) then Some(v) else None
  {
    var t := [sign] + s;
    assert t[0] == sign && t[1..] == s;
  }
}
