/**
 * Decimal rendering of integers, as Python's `str(int)` produces it.
 * The CSV writer turns each quantity into such a field; ParseInt is the
 * inverse used to state that an exported row gives back its record.
 */
module Decimal {

  predicate IsDigit(c: char) {
    '0' <= c <= '9'
  }

  function DigitChar(d: nat): (c: char)
    requires d < 10
    ensures IsDigit(c) && c as int - '0' as int == d
  {
    ('0' as int + d) as char
  }

  /** Digits of `n`, most significant first, with no leading zero. */
  function NatToString(n: nat): (s: string)
    ensures |s| >= 1 && forall i :: 0 <= i < |s| ==> IsDigit(s[i])
    ensures |s| > 1 ==> s[0] != '0'
    ensures s[0] == '0' <==> n == 0
  {
    if n < 10 then [DigitChar(n)]
    else NatToString(n / 10) + [DigitChar(n % 10)]
  }

  /**
   * `str(x)`: a leading '-' for negative numbers, then the digits of the magnitude
   * with no leading zero ("0" alone for zero).
   */
  function IntToString(x: int): (s: string)
    ensures |s| >= 1
    ensures s[0] == '-' <==> x < 0
    ensures var d := if x < 0 then 1 else 0;
            && d < |s|
            && (forall i :: d <= i < |s| ==> IsDigit(s[i]))
            && (s[d] == '0' <==> x == 0)
            && (s[d] == '0' ==> |s| == d + 1)
  {
    if x < 0 then
      var digits := NatToString(-x);
      assert ("-" + digits)[1..] == digits;
      "-" + digits
    else
      NatToString(x)
  }

  /** What `str` produces for an integer: an optional '-' and at least one digit. */
  predicate IsIntString(s: string) {
    |s| >= 1 && (s[0] == '-' || IsDigit(s[0])) && forall i :: 1 <= i < |s| ==> IsDigit(s[i])
  }

  /** The value of a string of decimal digits. */
  function ParseNat(s: string): nat
    requires forall i :: 0 <= i < |s| ==> IsDigit(s[i])
  {
    if s == [] then 0
    else
      var d := s[|s| - 1] as int - '0' as int;
      assert IsDigit(s[|s| - 1]);
      ParseNat(s[..|s| - 1]) * 10 + d
  }

  /** The value of an optionally negated string of decimal digits (Python's `int(s)` on such strings). */
  function ParseInt(s: string): (x: int)
    requires IsIntString(s)
  {
    var magnitude: int := if s[0] == '-' then ParseNat(s[1..]) else ParseNat(s);
    if s[0] == '-' then -magnitude else magnitude
  }

  lemma {:induction false} ParseNatToString(n: nat)
    ensures ParseNat(NatToString(n)) == n
  {
    if n >= 10 {
      var s := NatToString(n);
      assert s[..|s| - 1] == NatToString(n / 10);
      ParseNatToString(n / 10);
    }
  }

  /** Reading back what `str` wrote gives the integer again. */
  lemma ParseIntToString(x: int)
    ensures IsIntString(IntToString(x))
    ensures ParseInt(IntToString(x)) == x
  {
    var s := IntToString(x);
    if x < 0 {
      assert s[1..] == NatToString(-x);
      assert forall i :: 1 <= i < |s| ==> s[i] == s[1..][i - 1];
      ParseNatToString(-x);
    } else {
      ParseNatToString(x);
    }
  }
}
