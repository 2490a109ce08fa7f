/**
 * Decimal digit strings: the value of a run of ASCII digits (what `absint`
 * yields for a string matched by `\d+`) and the canonical rendering of a
 * natural number (what string interpolation of a timestamp yields).
 */
module Decimal {

  predicate IsDigit(c: char) {
    '0' <= c <= '9'
  }

  predicate AllDigits(s: string) {
    forall i :: 0 <= i < |s| ==> IsDigit(s[i])
  }

  /** No superfluous leading zero: how a number is printed. */
  predicate Canonical(s: string) {
    |s| > 0 && AllDigits(s) && (s[0] != '0' || |s| == 1)
  }

  function DigitValue(c: char): (d: nat)
    requires IsDigit(c)
    ensures d < 10
  {
    (c as int) - ('0' as int)
  }

  function DigitChar(d: nat): (c: char)
    requires d < 10
    ensures IsDigit(c) && DigitValue(c) == d
  {
    (('0' as int) + d) as char
  }

  /** The number a digit string denotes, most significant digit first. */
  function Value(s: string): nat
    requires AllDigits(s)
  {
    if |s| == 0 then 0 else Value(s[..|s| - 1]) * 10 + DigitValue(s[|s| - 1])
  }

  /** The canonical decimal rendering of `n`; it denotes `n` again. */
  function ToDecimal(n: nat): (s: string)
    ensures Canonical(s)
    ensures Value(s) == n
  {
    if n < 10 then
      [DigitChar(n)]
    else
      var p := ToDecimal(n / 10);
      var s := p + [DigitChar(n % 10)];
      assert s[..|s| - 1] == p;
      s
  }

  /** Leading zeros do not change the value. */
  lemma {:induction false} ValueOfZeroPrefix(s: string)
    requires AllDigits(s) && |s| > 0 && s[0] == '0'
    ensures Value(s) == Value(s[1..])
  {
    if |s| == 1 {
      assert s[1..] == [];
    } else {
      var p := s[..|s| - 1];
      assert p[0] == '0';
      ValueOfZeroPrefix(p);
      assert s[1..][..|s[1..]| - 1] == p[1..];
    }
  }

  /** A canonical digit string of at least two digits denotes at least 10. */
  lemma {:induction false} CanonicalValueAtLeastTen(s: string)
    requires Canonical(s) && |s| >= 2
    ensures Value(s) >= 10
  {
    var p := s[..|s| - 1];
    assert p[0] == s[0];
    if |p| >= 2 {
      CanonicalValueAtLeastTen(p);
    } else {
      assert Value(p) == DigitValue(p[0]) && p[0] != '0';
    }
  }

  /** Printing the value of a canonical digit string gives the string back. */
  lemma {:induction false} ToDecimalOfValue(s: string)
    requires Canonical(s)
    ensures ToDecimal(Value(s)) == s
  {
    if |s| == 1 {
      assert Value(s) == DigitValue(s[0]);
    } else {
      var p := s[..|s| - 1];
      assert p[0] == s[0];
      CanonicalValueAtLeastTen(s);
      ToDecimalOfValue(p);
      var n := Value(s);
      assert n / 10 == Value(p) && n % 10 == DigitValue(s[|s| - 1]);
      assert s == p + [s[|s| - 1]];
    }
  }
}
