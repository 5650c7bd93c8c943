/** The Java string conversions the details panel relies on: `n + ""` for an
    `int` and `b + ""` for a `boolean`. Each conversion comes with the parser
    that undoes it, and the round trip is proved. */
module JavaStrings {

  /** The decimal digit character for `d`. */
  function DigitChar(d: nat): (c: char)
    requires d < 10
    ensures '0' <= c <= '9'
    ensures c as int - '0' as int == d
  {
    ('0' as int + d) as char
  }

  predicate IsDigit(c: char) {
    '0' <= c <= '9'
  }

  predicate IsDigits(s: string) {
    forall i :: 0 <= i < |s| ==> IsDigit(s[i])
  }

  /** The value of a string of decimal digits, read most significant first. */
  function DigitsValue(s: string): nat
    requires IsDigits(s)
    decreases |s|
  {
    if s == [] then 0
    else DigitsValue(s[..|s| - 1]) * 10 + (s[|s| - 1] as int - '0' as int)
  }

  /** A canonical decimal: non-empty, digits only, and no leading zero unless it is "0". */
  predicate IsCanonicalDecimal(s: string) {
    |s| > 0 && IsDigits(s) && (s[0] == '0' ==> |s| == 1)
  }

  /** Decimal representation of a non-negative number: a canonical decimal
      that reads back as the number. */
  function NatToString(n: nat): (s: string)
    ensures IsCanonicalDecimal(s)
    ensures DigitsValue(s) == n
    decreases n
  {
    if n < 10 then [DigitChar(n)]
    else
      var p := NatToString(n / 10);
      var s := p + [DigitChar(n % 10)];
      assert s[..|s| - 1] == p;
      s
  }

  /** Inverse of IntToString: an optional leading minus sign, then a canonical decimal. */
  predicate IsIntString(s: string) {
    if |s| > 0 && s[0] == '-' then IsCanonicalDecimal(s[1..]) && s[1..] != "0"
    else IsCanonicalDecimal(s)
  }

  function IntValue(s: string): int
    requires IsIntString(s)
  {
    if |s| > 0 && s[0] == '-' then 0 - DigitsValue(s[1..]) as int else DigitsValue(s)
  }

  /** Java's `i + ""` for an `int`: a minus sign before the magnitude exactly
      when negative; it reads back as `i`. */
  function IntToString(i: int): (s: string)
    ensures IsIntString(s)
    ensures IntValue(s) == i
    ensures s[0] == '-' <==> i < 0
  {
    if i < 0 then
      var m := NatToString(-i);
      assert ("-" + m)[1..] == m;
      "-" + m
    else NatToString(i)
  }

  /** Distinct numbers print differently. */
  lemma IntToStringInjective(i: int, j: int)
    requires IntToString(i) == IntToString(j)
    ensures i == j
  {
  }

  /** Java's `b + ""` for a `boolean`. */
  function BoolToString(b: bool): (s: string)
    ensures s == "true" || s == "false"
    ensures (s == "true") <==> b
  {
    if b then "true" else "false"
  }
}
