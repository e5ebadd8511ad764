/** Decimal text of integers, as `big.Int.String()` and `fmt`'s `%d` / `%0Nd`
    write it, with the parser that reads it back. */
module Decimal {

  predicate IsDigit(c: char)
  {
    '0' <= c <= '9'
  }

  predicate AllDigits(s: string)
  {
    forall i :: 0 <= i < |s| ==> IsDigit(s[i])
  }

  function DigitChar(d: nat): (c: char)
    requires d < 10
    ensures IsDigit(c)
  {
    ('0' as int + d) as char
  }

  function DigitValue(c: char): (d: nat)
    requires IsDigit(c)
    ensures d < 10 && DigitChar(d) == c
  {
    c as int - '0' as int
  }

  /** The decimal digits of n, most significant first, without leading zeros. */
  function Digits(n: nat): (s: string)
    ensures |s| >= 1 && AllDigits(s)
    decreases n
  {
    if n < 10 then [DigitChar(n)] else Digits(n / 10) + [DigitChar(n % 10)]
  }

  /** The number a string of digits denotes. */
  function ParseDecimal(s: string): nat
    requires AllDigits(s)
  {
    if s == [] then 0 else ParseDecimal(s[..|s| - 1]) * 10 + DigitValue(s[|s| - 1])
  }

  lemma {:induction false} ParseDigits(n: nat)
    ensures ParseDecimal(Digits(n)) == n
    decreases n
  {
    if n >= 10 {
      var s := Digits(n);
      assert s[..|s| - 1] == Digits(n / 10);
      ParseDigits(n / 10);
    }
  }

  /** Different numbers have different decimal text. */
  lemma DigitsInjective(m: nat, n: nat)
    ensures Digits(m) == Digits(n) ==> m == n
  {
    ParseDigits(m);
    ParseDigits(n);
  }

  function Pow10(k: nat): (p: nat)
    ensures p >= 1
  {
    if k == 0 then 1 else 10 * Pow10(k - 1)
  }

  /** A number below 10^k has at most k digits. */
  lemma {:induction false} DigitsBound(n: nat, k: nat)
    requires 1 <= k && n < Pow10(k)
    ensures |Digits(n)| <= k
    decreases n
  {
    if n >= 10 {
      assert n / 10 < Pow10(k - 1);
      DigitsBound(n / 10, k - 1);
    }
  }

  function Zeros(k: nat): (s: string)
    ensures |s| == k && forall i :: 0 <= i < k ==> s[i] == '0'
  {
    if k == 0 then [] else Zeros(k - 1) + "0"
  }

  /** `%0<width>d` of a non-negative number: its digits, left-padded with
      zeros up to the width. */
  function ZeroPad(n: nat, width: nat): (s: string)
    ensures AllDigits(s)
    ensures |s| == if |Digits(n)| < width then width else |Digits(n)|
    ensures |Digits(n)| <= width ==> |s| == width
  {
    var d := Digits(n);
    (if |d| < width then Zeros(width - |d|) else []) + d
  }

  /** `fmt.Sprintf("%0<width>d", x)`: for a negative x the sign comes first and
      the zero padding fills the rest of the width. */
  function FormatInt(x: int, width: nat): string
  {
    if x < 0 then "-" + ZeroPad(-x, if width > 0 then width - 1 else 0)
    else ZeroPad(x, width)
  }

  /** What `%0Nd` writes: the digits read back as the magnitude, a negative
      number carries a leading '-', and the text is never shorter than the
      width nor than the number's own digits. */
  lemma FormatIntDigits(x: int, width: nat)
    ensures var s := FormatInt(x, width);
      x >= 0 ==>
        && AllDigits(s) && ParseDecimal(s) == x
        && |s| == (if |Digits(x)| < width then width else |Digits(x)|)
    ensures var s := FormatInt(x, width);
      x < 0 ==>
        && |s| >= 2 && s[0] == '-' && AllDigits(s[1..]) && ParseDecimal(s[1..]) == -x
        && |s| == (if 1 + |Digits(-x)| < width then width else 1 + |Digits(-x)|)
  {
    if x < 0 {
      var w := if width > 0 then width - 1 else 0;
      var pad := ZeroPad(-x, w);
      assert FormatInt(x, width) == "-" + pad;
      ParseZeroPad(-x, w);
      Signed(pad);
    } else {
      assert FormatInt(x, width) == ZeroPad(x, width);
      ParseZeroPad(x, width);
    }
  }

  /** A '-' in front of a text leaves the text itself after it. */
  lemma Signed(t: string)
    ensures |"-" + t| == 1 + |t| && ("-" + t)[0] == '-' && ("-" + t)[1..] == t
  {
    assert ("-" + t)[1..] == t;
  }

  /** Leading zeros do not change the value a string of digits denotes. */
  lemma {:induction false} ParseLeadingZeros(k: nat, s: string)
    requires AllDigits(s)
    ensures AllDigits(Zeros(k) + s) && ParseDecimal(Zeros(k) + s) == ParseDecimal(s)
    decreases |s|
  {
    var t := Zeros(k) + s;
    assert AllDigits(t) by {
      forall i | 0 <= i < |t| ensures IsDigit(t[i]) {
        if i < k { assert t[i] == Zeros(k)[i]; } else { assert t[i] == s[i - k]; }
      }
    }
    if s == [] {
      assert t == Zeros(k);
      ParseZeros(k);
    } else {
      var s' := s[..|s| - 1];
      assert t[..|t| - 1] == Zeros(k) + s';
      assert t[|t| - 1] == s[|s| - 1];
      ParseLeadingZeros(k, s');
    }
  }

  lemma {:induction false} ParseZeros(k: nat)
    ensures AllDigits(Zeros(k)) && ParseDecimal(Zeros(k)) == 0
    decreases k
  {
    if k > 0 {
      assert Zeros(k)[..k - 1] == Zeros(k - 1);
      ParseZeros(k - 1);
    }
  }

  /** A zero-padded field reads back as the number it was written from. */
  lemma ParseZeroPad(n: nat, width: nat)
    ensures ParseDecimal(ZeroPad(n, width)) == n
  {
    var d := Digits(n);
    ParseDigits(n);
    if |d| < width {
      ParseLeadingZeros(width - |d|, d);
    } else {
      assert ZeroPad(n, width) == d;
    }
  }

  /** A number that fits a field of `width` digits is written in exactly that
      many digits and reads back as itself. */
  lemma FixedWidthRoundTrip(x: int, width: nat)
    requires 1 <= width && 0 <= x < Pow10(width)
    ensures |FormatInt(x, width)| == width && AllDigits(FormatInt(x, width))
    ensures ParseDecimal(FormatInt(x, width)) == x
  {
    FormatIntDigits(x, width);
    DigitsBound(x, width);
  }
}
