/**
 * Decimal rendering of non-negative integers, as Python's format
 * specification `{:0w}` produces it: the digits of the number, left-padded
 * with '0' up to `w` characters and never truncated.
 */
module Decimal {

  predicate IsDigit(c: char) {
    '0' <= c <= '9'
  }

  predicate AllDigits(s: string) {
    forall i :: 0 <= i < |s| ==> IsDigit(s[i])
  }

  function Max(a: nat, b: nat): nat {
    if a < b then b else a
  }

  function Pow10(k: nat): (p: nat)
    ensures p >= 1
  {
    if k == 0 then 1 else 10 * Pow10(k - 1)
  }

  function DigitValue(c: char): (d: nat)
    requires IsDigit(c)
    ensures d < 10
  {
    c as int - '0' as int
  }

  function DigitChar(d: nat): (c: char)
    requires d < 10
    ensures IsDigit(c) && DigitValue(c) == d
  {
    ('0' as int + d) as char
  }

  /** The number of decimal digits of `n` (one for zero). */
  function NumDigits(n: nat): (k: nat)
    ensures k >= 1
  {
    if n < 10 then 1 else 1 + NumDigits(n / 10)
  }

  /** The shortest decimal representation of `n`, with no leading zero. */
  function Digits(n: nat): (s: string)
    ensures |s| == NumDigits(n)
    ensures AllDigits(s)
    ensures s[0] == '0' ==> n == 0
  {
    if n < 10 then [DigitChar(n)] else Digits(n / 10) + [DigitChar(n % 10)]
  }

  /** The value of a string of decimal digits, most significant first. */
  function DecimalValue(s: string): (v: nat)
    requires AllDigits(s)
    ensures v < Pow10(|s|)
  {
    if s == [] then 0 else DecimalValue(s[..|s| - 1]) * 10 + DigitValue(s[|s| - 1])
  }

  /**
   * Python's `format(n, "0" + str(width))` for a non-negative `n`: the digits
   * of `n`, with '0' put in front until the text is `width` characters long.
   */
  function PadInt(n: nat, width: nat): string
    decreases width
  {
    if width <= NumDigits(n) then Digits(n) else ['0'] + PadInt(n, width - 1)
  }

  /**
   * The rendering is `width` characters long, or longer when `n` has more
   * digits: it is all digits, ends with every digit of `n` and has only '0'
   * before them.
   */
  lemma {:induction false} PadIntShape(n: nat, width: nat)
    decreases width
    ensures var s := PadInt(n, width);
      && |s| == Max(width, NumDigits(n))
      && AllDigits(s)
      && s[|s| - NumDigits(n)..] == Digits(n)
      && forall i :: 0 <= i < |s| - NumDigits(n) ==> s[i] == '0'
  {
    if width > NumDigits(n) {
      PadIntShape(n, width - 1);
      var s, t := PadInt(n, width), PadInt(n, width - 1);
      assert s == ['0'] + t;
      assert s[|s| - NumDigits(n)..] == t[|t| - NumDigits(n)..];
      forall i | 0 <= i < |s| ensures IsDigit(s[i]) {
        if i > 0 { assert s[i] == t[i - 1]; }
      }
    }
  }

  /** `Pow10(k)` bounds `n` from above exactly when `n` has at most `k` digits. */
  lemma {:induction false} NumDigitsBounds(n: nat)
    ensures n < Pow10(NumDigits(n))
    ensures NumDigits(n) > 1 ==> Pow10(NumDigits(n) - 1) <= n
  {
    if n >= 10 {
      NumDigitsBounds(n / 10);
    }
  }

  lemma {:induction false} NumDigitsAtMost(n: nat, k: nat)
    requires 1 <= k && n < Pow10(k)
    ensures NumDigits(n) <= k
  {
    if n >= 10 {
      NumDigitsAtMost(n / 10, k - 1);
    }
  }

  /** A number below `10^width` is rendered in exactly `width` characters. */
  lemma PadIntFixedWidth(n: nat, width: nat)
    requires 1 <= width && n < Pow10(width)
    ensures |PadInt(n, width)| == width
    ensures AllDigits(PadInt(n, width))
  {
    NumDigitsAtMost(n, width);
    PadIntShape(n, width);
  }

  lemma {:induction false} DecimalValueOfDigits(n: nat)
    ensures DecimalValue(Digits(n)) == n
  {
    var s := Digits(n);
    if n < 10 {
      assert s[..|s| - 1] == [];
    } else {
      assert s[..|s| - 1] == Digits(n / 10);
      DecimalValueOfDigits(n / 10);
    }
  }

  /** A leading zero does not change the value of a digit string. */
  lemma {:induction false} DecimalValueLeadingZero(s: string)
    requires AllDigits(s)
    ensures AllDigits(['0'] + s)
    ensures DecimalValue(['0'] + s) == DecimalValue(s)
  {
    var t := ['0'] + s;
    if s == [] {
      assert t[..|t| - 1] == [];
    } else {
      assert t[..|t| - 1] == ['0'] + s[..|s| - 1];
      DecimalValueLeadingZero(s[..|s| - 1]);
    }
  }

  /** Reading a padded rendering back as a decimal number gives the number. */
  lemma {:induction false} PadIntRoundTrip(n: nat, width: nat)
    decreases width
    ensures AllDigits(PadInt(n, width))
    ensures DecimalValue(PadInt(n, width)) == n
  {
    if width <= NumDigits(n) {
      DecimalValueOfDigits(n);
    } else {
      PadIntRoundTrip(n, width - 1);
      DecimalValueLeadingZero(PadInt(n, width - 1));
    }
  }

  /** Distinct numbers have distinct renderings, whatever the widths. */
  lemma PadIntInjective(m: nat, n: nat, wm: nat, wn: nat)
    requires PadInt(m, wm) == PadInt(n, wn)
    ensures m == n
  {
    PadIntRoundTrip(m, wm);
    PadIntRoundTrip(n, wn);
  }
}
