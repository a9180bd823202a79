/**
 * ASCII decimal digit strings: the digits that the `[0-9]` patterns of the parser accept
 * (the `\d` pattern also matches other Unicode decimal digits, which are not modelled),
 * their value as `byte.Parse`/`int.Parse` read them, and the shortest decimal rendering of
 * a natural number.
 */
module Decimal {

  predicate IsDigit(c: char) {
    '0' <= c <= '9'
  }

  predicate IsDigits(s: string) {
    forall i :: 0 <= i < |s| ==> IsDigit(s[i])
  }

  function DigitValue(c: char): (d: nat)
    requires IsDigit(c)
    ensures d < 10
  {
    (c as int) - ('0' as int)
  }

  function DigitChar(d: nat): (c: char)
    requires d < 10
    ensures IsDigit(c) && DigitValue(c) == d
  {
    (('0' as int) + d) as char
  }

  /** The value of a digit string, most significant digit first. */
  function DecimalValue(s: string): nat
    requires IsDigits(s)
    decreases |s|
  {
    if s == [] then 0 else DecimalValue(s[..|s| - 1]) * 10 + DigitValue(s[|s| - 1])
  }

  /** The shortest decimal rendering of `n` (no leading zeros). */
  function NatToDecimal(n: nat): (s: string)
    ensures IsDigits(s) && 1 <= |s|
    ensures n < 10 ==> |s| == 1
    ensures 10 <= n < 100 ==> |s| == 2
    ensures 100 <= n < 1000 ==> |s| == 3
    decreases n
  {
    if n < 10 then [DigitChar(n)] else NatToDecimal(n / 10) + [DigitChar(n % 10)]
  }

  lemma {:induction false} DecimalRoundTrip(n: nat)
    ensures DecimalValue(NatToDecimal(n)) == n
    decreases n
  {
    if n >= 10 {
      var s := NatToDecimal(n);
      assert s[..|s| - 1] == NatToDecimal(n / 10);
      DecimalRoundTrip(n / 10);
    }
  }
}
