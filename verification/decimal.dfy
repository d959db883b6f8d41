/**
 * Decimal rendering of a machine integer, as `std::ostream << (int)value`
 * writes it with default stream flags: an optional minus sign followed by
 * the digits of the magnitude, without leading zeros.
 *
 * `ParseDecimal` is the inverse used to state what a rendering means.
 */
module Decimal {

  import opened Wrappers

  predicate IsDigit(c: char) {
    '0' <= c <= '9'
  }

  predicate AllDigits(s: string) {
    forall k :: 0 <= k < |s| ==> IsDigit(s[k])
  }

  function DigitChar(d: nat): (c: char)
    requires d < 10
    ensures IsDigit(c)
  {
    "0123456789"[d]
  }

  function DigitValue(c: char): (d: nat)
    requires IsDigit(c)
    ensures d < 10
    ensures DigitChar(d) == c
  {
    (c as int - '0' as int) as nat
  }

  /** Digits of a natural number in the canonical form: non-empty, no leading zero. */
  predicate CanonicalDigits(s: string) {
    |s| > 0 && AllDigits(s) && (|s| > 1 ==> s[0] != '0')
  }

  /** Canonical decimal form of an integer; "-0" is not one. */
  predicate Canonical(s: string) {
    || CanonicalDigits(s)
    || (|s| > 1 && s[0] == '-' && CanonicalDigits(s[1..]) && s[1] != '0')
  }

  function NatToDigits(n: nat): (s: string)
    ensures CanonicalDigits(s)
    ensures n == 0 <==> s == "0"
    decreases n
  {
    if n < 10 then [DigitChar(n)]
    else NatToDigits(n / 10) + [DigitChar(n % 10)]
  }

  function DigitsToNat(s: string): nat
    requires AllDigits(s)
    decreases |s|
  {
    if |s| == 0 then 0
    else DigitsToNat(s[..|s| - 1]) * 10 + DigitValue(s[|s| - 1])
  }

  /** What `out << (int)value` writes. */
  function IntToDecimal(i: int): (s: string)
    ensures Canonical(s)
    ensures |s| > 0 && (s[0] == '-' <==> i < 0)
  {
    if i < 0 then "-" + NatToDigits(-i) else NatToDigits(i)
  }

  /** Reads back an optionally signed string of decimal digits. */
  function ParseDecimal(s: string): Option<int> {
    if |s| > 1 && s[0] == '-' && AllDigits(s[1..]) then Some(0 - DigitsToNat(s[1..]))
    else if |s| > 0 && AllDigits(s) then Some(DigitsToNat(s) as int)
    else None
  }

  lemma {:induction false} DigitsRoundTrip(n: nat)
    ensures DigitsToNat(NatToDigits(n)) == n
    decreases n
  {
    if n >= 10 {
      var s := NatToDigits(n);
      DigitsRoundTrip(n / 10);
      assert s[..|s| - 1] == NatToDigits(n / 10);
    }
  }

  lemma {:induction false} LeadingDigitPositive(s: string)
    requires AllDigits(s) && |s| > 0 && s[0] != '0'
    ensures DigitsToNat(s) > 0
    decreases |s|
  {
    if |s| > 1 {
      LeadingDigitPositive(s[..|s| - 1]);
    } else {
      assert DigitChar(0) == '0';
    }
  }

  lemma {:induction false} CanonicalDigitsRoundTrip(s: string)
    requires CanonicalDigits(s)
    ensures NatToDigits(DigitsToNat(s)) == s
    decreases |s|
  {
    var n := DigitsToNat(s);
    if |s| > 1 {
      var t := s[..|s| - 1];
      var m := DigitsToNat(t);
      var d := DigitValue(s[|s| - 1]);
      assert n == m * 10 + d;
      LeadingDigitPositive(t);
      CanonicalDigitsRoundTrip(t);
      assert n / 10 == m && n % 10 == d;
      assert NatToDigits(n) == NatToDigits(m) + [DigitChar(d)];
      assert s == t + [s[|s| - 1]];
    } else {
      assert s[..|s| - 1] == [];
      assert n == DigitsToNat([]) * 10 + DigitValue(s[0]);
    }
  }

  /** Rendering an integer and reading it back gives the integer. */
  lemma DecimalRoundTrip(i: int)
    ensures ParseDecimal(IntToDecimal(i)) == Some(i)
  {
    var s := IntToDecimal(i);
    if i < 0 {
      var t := NatToDigits(-i);
      DigitsRoundTrip(-i);
      assert s == "-" + t && s[1..] == t;
      assert AllDigits(s[1..]);
    } else {
      DigitsRoundTrip(i);
      assert s[0] != '-';
    }
  }

  /** Every canonical decimal string is the rendering of the integer it denotes. */
  lemma CanonicalRoundTrip(s: string)
    requires Canonical(s)
    ensures ParseDecimal(s).Some?
    ensures IntToDecimal(ParseDecimal(s).value) == s
  {
    if s[0] == '-' {
      var t := s[1..];
      LeadingDigitPositive(t);
      CanonicalDigitsRoundTrip(t);
      assert s == "-" + t;
    } else {
      CanonicalDigitsRoundTrip(s);
    }
  }
}
