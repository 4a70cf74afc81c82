/** Base-10 rendering of natural numbers, as the C runtime's `_itoa(value, buffer, 10)`
    produces it for a non-negative value (no sign, no leading zeros), and its inverse. */
module Decimal {

  predicate IsDigit(c: char) {
    '0' <= c <= '9'
  }

  predicate AllDigits(s: string) {
    forall k :: 0 <= k < |s| ==> IsDigit(s[k])
  }

  /** The character for the decimal digit d. */
  function DigitChar(d: nat): char
    requires d < 10
  {
    ('0' as int + d) as char
  }

  /** The value of a decimal digit character. */
  function DigitValue(c: char): nat
    requires IsDigit(c)
  {
    c as int - '0' as int
  }

  function Pow10(k: nat): (p: nat)
    ensures p >= 1
  {
    if k == 0 then 1 else 10 * Pow10(k - 1)
  }

  /** The decimal digits of n, most significant first. */
  function DecimalDigits(n: nat): (s: string)
    ensures 1 <= |s|
    ensures AllDigits(s)
    decreases n
  {
    if n < 10 then [DigitChar(n)] else DecimalDigits(n / 10) + [DigitChar(n % 10)]
  }

  /** The number a string of decimal digits denotes (the empty string denotes 0). */
  function DecimalValue(s: string): (v: nat)
    requires AllDigits(s)
    ensures v < Pow10(|s|)
  {
    if s == [] then 0 else DecimalValue(s[..|s| - 1]) * 10 + DigitValue(s[|s| - 1])
  }

  /** A canonical decimal numeral: at least one digit, and no leading zero unless it is "0". */
  predicate IsCanonical(s: string) {
    1 <= |s| && AllDigits(s) && (|s| > 1 ==> s[0] != '0')
  }

  /** The longest prefix of s made of decimal digits. */
  function LeadingDigits(s: string): (p: string)
    ensures |p| <= |s| && p == s[..|p|]
    ensures AllDigits(p)
    ensures |p| < |s| ==> !IsDigit(s[|p|])
  {
    if s == [] || !IsDigit(s[0]) then [] else [s[0]] + LeadingDigits(s[1..])
  }

  lemma DigitCharValue(d: nat)
    requires d < 10
    ensures IsDigit(DigitChar(d)) && DigitValue(DigitChar(d)) == d
  {
  }

  /** The rendering has no sign and no leading zero: it is canonical. */
  lemma {:induction false} DecimalDigitsCanonical(n: nat)
    ensures IsCanonical(DecimalDigits(n))
    decreases n
  {
    if n >= 10 {
      DecimalDigitsCanonical(n / 10);
      assert DecimalDigits(n)[0] == DecimalDigits(n / 10)[0];
    }
  }

  /** The number of digits of n is exactly the k with 10^(k-1) <= n < 10^k (or 1 for n < 10). */
  lemma {:induction false} DigitCountRange(n: nat)
    ensures n < Pow10(|DecimalDigits(n)|)
    ensures |DecimalDigits(n)| > 1 ==> Pow10(|DecimalDigits(n)| - 1) <= n
    decreases n
  {
    if n >= 10 {
      DigitCountRange(n / 10);
    }
  }

  /** If n < 10^k, rendering n takes at most k digits. */
  lemma {:induction false} DigitsLengthBound(n: nat, k: nat)
    requires 1 <= k && n < Pow10(k)
    ensures |DecimalDigits(n)| <= k
    decreases n
  {
    if n >= 10 {
      assert k >= 2;
      DigitsLengthBound(n / 10, k - 1);
    }
  }

  /** Parsing the rendering of n gives back n. */
  lemma {:induction false} DecimalRoundTrip(n: nat)
    ensures DecimalValue(DecimalDigits(n)) == n
    decreases n
  {
    var s := DecimalDigits(n);
    if n < 10 {
      DigitCharValue(n);
      assert s[..|s| - 1] == [];
    } else {
      DecimalRoundTrip(n / 10);
      DigitCharValue(n % 10);
      assert s[..|s| - 1] == DecimalDigits(n / 10);
    }
  }

  /** A numeral that starts with a non-zero digit denotes at least 10^(length-1). */
  lemma {:induction false} LeadingNonZeroValue(s: string)
    requires 1 <= |s| && AllDigits(s) && s[0] != '0'
    ensures DecimalValue(s) >= Pow10(|s| - 1)
    decreases |s|
  {
    if |s| > 1 {
      var p := s[..|s| - 1];
      LeadingNonZeroValue(p);
    }
  }

  /** Every canonical numeral is the rendering of the number it denotes, so the rendering is
      the one and only canonical numeral for each number. */
  lemma {:induction false} CanonicalRoundTrip(s: string)
    requires IsCanonical(s)
    ensures DecimalDigits(DecimalValue(s)) == s
    decreases |s|
  {
    var last := s[|s| - 1];
    var d := DigitValue(last);
    assert DigitChar(d) == last;
    if |s| > 1 {
      var p := s[..|s| - 1];
      LeadingNonZeroValue(p);
      CanonicalRoundTrip(p);
      var v := DecimalValue(s);
      assert v / 10 == DecimalValue(p) && v % 10 == d;
      assert s == p + [last];
    }
  }

  /** The leading digit run of a rendering followed by a non-digit is that rendering. */
  lemma {:induction false} LeadingDigitsOfConcat(d: string, t: string)
    requires AllDigits(d)
    requires t == [] || !IsDigit(t[0])
    ensures LeadingDigits(d + t) == d
    decreases |d|
  {
    if d != [] {
      LeadingDigitsOfConcat(d[1..], t);
      assert (d + t)[1..] == d[1..] + t;
      assert d == [d[0]] + d[1..];
    } else {
      assert d + t == t;
    }
  }
}
