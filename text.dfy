/**
 * Decimal text of natural numbers, as Python's `str(int)` writes it, and its inverse.
 * Session ids and message ids embed a whole-second timestamp in this form.
 */
module Text {

  predicate IsDigit(c: char) {
    '0' <= c <= '9'
  }

  predicate AllDigits(s: string) {
    forall i :: 0 <= i < |s| ==> IsDigit(s[i])
  }

  function DigitChar(d: nat): (c: char)
    requires d < 10
    ensures IsDigit(c) && c as int - '0' as int == d
  {
    (d + '0' as int) as char
  }

  function DigitValue(c: char): (d: nat)
    requires IsDigit(c)
    ensures d < 10
  {
    c as int - '0' as int
  }

  /** `str(n)`: most significant digit first, no sign, never empty. */
  function NatToString(n: nat): (s: string)
    ensures |s| > 0 && AllDigits(s)
    decreases n
  {
    if n < 10 then [DigitChar(n)] else NatToString(n / 10) + [DigitChar(n % 10)]
  }

  /** `int(s)` for a string of decimal digits. */
  function ParseNat(s: string): nat
    requires AllDigits(s)
    decreases |s|
  {
    if s == [] then 0 else ParseNat(s[..|s| - 1]) * 10 + DigitValue(s[|s| - 1])
  }

  lemma {:induction false} ParseNatToString(n: nat)
    ensures ParseNat(NatToString(n)) == n
    decreases n
  {
    var s := NatToString(n);
    if n >= 10 {
      assert s[..|s| - 1] == NatToString(n / 10);
      ParseNatToString(n / 10);
    }
  }

  /** Two numbers with the same decimal text are the same number. */
  lemma NatToStringInjective(m: nat, n: nat)
    requires NatToString(m) == NatToString(n)
    ensures m == n
  {
    ParseNatToString(m);
    ParseNatToString(n);
  }

  /** Length of the longest suffix of `s` made of decimal digits. */
  function DigitSuffixLength(s: string): (k: nat)
    ensures k <= |s|
    ensures AllDigits(s[|s| - k..])
    ensures k < |s| ==> !IsDigit(s[|s| - k - 1])
    decreases |s|
  {
    if s == [] || !IsDigit(s[|s| - 1]) then 0
    else
      var k := 1 + DigitSuffixLength(s[..|s| - 1]);
      assert s[|s| - k..] == s[..|s| - 1][|s| - k..] + [s[|s| - 1]];
      k
  }

  /** A non-digit separator followed by digits: the digit run is exactly what follows the separator. */
  lemma {:induction false} DigitSuffixAfterSeparator(p: string, sep: char, d: string)
    requires !IsDigit(sep) && AllDigits(d)
    ensures DigitSuffixLength(p + [sep] + d) == |d|
    decreases |d|
  {
    var s := p + [sep] + d;
    if d == [] {
      assert s[|s| - 1] == sep;
    } else {
      assert s[..|s| - 1] == p + [sep] + d[..|d| - 1];
      DigitSuffixAfterSeparator(p, sep, d[..|d| - 1]);
    }
  }
}
