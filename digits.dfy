/**
 * Zero-padded decimal formatting, as Python's `{n:02d}` format spec and the
 * `%Y`, `%m`, `%d` directives of `strftime` write non-negative integers, and
 * the reading of such digit strings back into numbers.
 */
module Digits {

  function Pow10(w: nat): (p: nat)
    ensures p >= 1
  {
    if w == 0 then 1 else 10 * Pow10(w - 1)
  }

  predicate IsDigit(c: char) {
    '0' <= c <= '9'
  }

  predicate AllDigits(s: string) {
    forall i :: 0 <= i < |s| ==> IsDigit(s[i])
  }

  function DigitChar(d: nat): (c: char)
    requires d < 10
    ensures IsDigit(c)
    ensures c as int - '0' as int == d
  {
    (d + '0' as int) as char
  }

  function DigitValue(c: char): (d: nat)
    requires IsDigit(c)
    ensures d < 10
    ensures DigitChar(d) == c
  {
    c as int - '0' as int
  }

  /** `n` written in base ten with exactly `w` digits, zero-padded on the left. */
  function PadDigits(n: nat, w: nat): (s: string)
    requires n < Pow10(w)
    ensures |s| == w
    ensures AllDigits(s)
  {
    if w == 0 then []
    else PadDigits(n / 10, w - 1) + [DigitChar(n % 10)]
  }

  /** The number a string of decimal digits denotes. */
  function DigitsValue(s: string): (n: nat)
    requires AllDigits(s)
    ensures n < Pow10(|s|)
  {
    if s == [] then 0
    else DigitsValue(s[..|s| - 1]) * 10 + DigitValue(s[|s| - 1])
  }

  /** Two-digit zero padding, the `{n:02d}` of the source, for 0 <= n < 100. */
  function Pad2(n: nat): (s: string)
    requires n < 100
    ensures |s| == 2 && AllDigits(s)
  {
    PadDigits(n, 2)
  }

  /** Reading a padded number gives the number back. */
  lemma {:induction false} PadDigitsRoundTrip(n: nat, w: nat)
    requires n < Pow10(w)
    ensures DigitsValue(PadDigits(n, w)) == n
  {
    if w > 0 {
      var s := PadDigits(n, w);
      assert s[..|s| - 1] == PadDigits(n / 10, w - 1);
      PadDigitsRoundTrip(n / 10, w - 1);
    }
  }

  /** Padding the value of a digit string to its own width gives the string back. */
  lemma {:induction false} DigitsValueRoundTrip(s: string)
    requires AllDigits(s)
    ensures PadDigits(DigitsValue(s), |s|) == s
  {
    if s != [] {
      var init := s[..|s| - 1];
      var last := s[|s| - 1];
      DigitsValueRoundTrip(init);
      var n := DigitsValue(init) * 10 + DigitValue(last);
      assert DigitsValue(s) == n;
      LastDigit(DigitsValue(init), DigitValue(last));
      assert PadDigits(n, |s|) == PadDigits(DigitsValue(init), |init|) + [DigitChar(DigitValue(last))];
      assert s == init + [last];
    }
  }

  /** Appending a digit `v` to `a` can be undone by division and remainder by ten. */
  lemma LastDigit(a: nat, v: nat)
    requires v < 10
    ensures (a * 10 + v) / 10 == a && (a * 10 + v) % 10 == v
  {
  }

  /** Distinct numbers are padded to distinct strings. */
  lemma PadDigitsInjective(m: nat, n: nat, w: nat)
    requires m < Pow10(w) && n < Pow10(w)
    ensures PadDigits(m, w) == PadDigits(n, w) <==> m == n
  {
    PadDigitsRoundTrip(m, w);
    PadDigitsRoundTrip(n, w);
  }
}
