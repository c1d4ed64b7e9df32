/**
 * Decimal text of non-negative integers, as Python renders it: `str(n)` (no
 * padding) and `f"{n:02d}"` (zero-filled to two places), together with the
 * decoder that reads such text back, used by the read-back lemmas and by
 * `OteUrl.ParseUrl`.
 */
module Digits {

  predicate IsDigit(c: char) {
    '0' <= c <= '9'
  }

  predicate AllDigits(s: string) {
    forall i :: 0 <= i < |s| ==> IsDigit(s[i])
  }

  function Pow10(k: nat): (p: nat)
    ensures p >= 1
  {
    if k == 0 then 1 else 10 * Pow10(k - 1)
  }

  function DigitChar(d: nat): (c: char)
    requires d < 10
    ensures IsDigit(c) && c as int - '0' as int == d
  {
    ('0' as int + d) as char
  }

  function DigitValue(c: char): (d: nat)
    requires IsDigit(c)
    ensures d < 10 && DigitChar(d) == c
  {
    c as int - '0' as int
  }

  /** `str(n)`: the shortest decimal text of n, with no sign and no leading zero. */
  function NatToString(n: nat): (s: string)
    ensures AllDigits(s)
    ensures |s| == 1 <==> n < 10
    ensures |s| >= 1 && (|s| > 1 ==> s[0] != '0')
  {
    if n < 10 then [DigitChar(n)] else NatToString(n / 10) + [DigitChar(n % 10)]
  }

  /**
   * Decoder for a string of decimal digits, used to state that rendered text
   * reads back; the empty string reads as 0.
   */
  function DigitsValue(s: string): (n: nat)
    requires AllDigits(s)
    ensures n < Pow10(|s|)
  {
    if s == [] then 0 else DigitsValue(s[..|s| - 1]) * 10 + DigitValue(s[|s| - 1])
  }

  /** `f"{n:02d}"`: the decimal text of n, zero-filled on the left to at least two places. */
  function Pad2(n: nat): (s: string)
    ensures AllDigits(s) && |s| >= 2
    ensures n < 100 <==> |s| == 2
  {
    if n < 10 then "0" + NatToString(n) else NatToString(n)
  }

  /** Reading back the text that `str` writes gives the number again. */
  lemma {:induction false} NatToStringReadBack(n: nat)
    ensures DigitsValue(NatToString(n)) == n
  {
    var s := NatToString(n);
    if n >= 10 {
      NatToStringReadBack(n / 10);
      assert s[..|s| - 1] == NatToString(n / 10);
    } else {
      assert s[..|s| - 1] == [];
    }
  }

  /** Reading back a zero-filled field gives the number again. */
  lemma Pad2ReadBack(n: nat)
    ensures DigitsValue(Pad2(n)) == n
  {
    NatToStringReadBack(n);
    if n < 10 {
      var s := Pad2(n);
      assert s[..|s| - 1] == "0";
      assert "0"[..0] == [];
    }
  }

  /** `str` is injective: different numbers are written differently. */
  lemma NatToStringInjective(a: nat, b: nat)
    requires NatToString(a) == NatToString(b)
    ensures a == b
  {
    NatToStringReadBack(a);
    NatToStringReadBack(b);
  }

  /** A year between 1000 and 9999 is written with exactly four digits. */
  lemma FourDigitYear(y: nat)
    requires 1000 <= y <= 9999
    ensures |NatToString(y)| == 4
  {
    assert |NatToString(y / 1000)| == 1;
    assert |NatToString(y / 100)| == 2 by { assert y / 100 / 10 == y / 1000; }
    assert |NatToString(y / 10)| == 3 by { assert y / 10 / 10 == y / 100; }
  }

  /** The number of leading decimal digits of s. */
  function LeadingDigits(s: string): (k: nat)
    ensures k <= |s| && AllDigits(s[..k])
    ensures k < |s| ==> !IsDigit(s[k])
  {
    if s != [] && IsDigit(s[0]) then
      var k := 1 + LeadingDigits(s[1..]);
      assert s[..k] == [s[0]] + s[1..][..k - 1];
      k
    else 0
  }

  /** A run of digits followed by a non-digit is read off exactly. */
  lemma {:induction false} LeadingDigitsOfConcat(a: string, b: string)
    requires AllDigits(a)
    requires b != [] && !IsDigit(b[0])
    ensures LeadingDigits(a + b) == |a|
  {
    if a != [] {
      assert (a + b)[1..] == a[1..] + b;
      LeadingDigitsOfConcat(a[1..], b);
    }
  }
}
