/**
 Decimal numerals for natural numbers, written the way Rust's `Display` writes an
 unsigned integer: most significant digit first, no sign, no padding and no leading
 zero except for the numeral "0" itself.
 */
module Numerals {

  predicate IsDigit(c: char) {
    '0' <= c <= '9'
  }

  predicate AllDigits(s: string) {
    forall i :: 0 <= i < |s| ==> IsDigit(s[i])
  }

  /** A numeral as `Display` writes it: non-empty, digits only, no leading zero unless it is "0". */
  predicate IsCanonical(s: string) {
    |s| > 0 && AllDigits(s) && (s[0] == '0' ==> |s| == 1)
  }

  function DigitChar(d: nat): (c: char)
    requires d < 10
    ensures IsDigit(c)
  {
    ('0' as int + d) as char
  }

  function DigitValue(c: char): (d: nat)
    requires IsDigit(c)
    ensures d < 10
  {
    c as int - '0' as int
  }

  /** The decimal rendering of `n`. */
  function ToDecimal(n: nat): (s: string)
    ensures IsCanonical(s)
    ensures s == "0" <==> n == 0
    decreases n
  {
    if n < 10 then [DigitChar(n)]
    else ToDecimal(n / 10) + [DigitChar(n % 10)]
  }

  /** The value of a string of digits, most significant first; the empty string reads as 0. */
  function ParseDecimal(s: string): nat
    requires AllDigits(s)
    decreases |s|
  {
    if s == [] then 0
    else ParseDecimal(s[..|s| - 1]) * 10 + DigitValue(s[|s| - 1])
  }

  /** Reading back a rendering gives the number rendered. */
  lemma {:induction false} ParseToDecimal(n: nat)
    ensures ParseDecimal(ToDecimal(n)) == n
    decreases n
  {
    if n >= 10 {
      var s := ToDecimal(n);
      var init := ToDecimal(n / 10);
      assert s[..|s| - 1] == init;
      ParseToDecimal(n / 10);
    } else {
      assert ToDecimal(n)[..0] == [];
    }
  }

  /** A numeral whose first digit is not zero denotes a positive number. */
  lemma {:induction false} ParseLeadingNonZero(s: string)
    requires |s| > 0 && AllDigits(s) && s[0] != '0'
    ensures ParseDecimal(s) >= 1
    decreases |s|
  {
    if |s| == 1 {
      assert s[..0] == [];
    } else {
      ParseLeadingNonZero(s[..|s| - 1]);
    }
  }

  /** Rendering the value of a canonical numeral gives the numeral back. */
  lemma {:induction false} ToDecimalParse(s: string)
    requires IsCanonical(s)
    ensures ToDecimal(ParseDecimal(s)) == s
    decreases |s|
  {
    var last := s[|s| - 1];
    if |s| == 1 {
      assert s[..0] == [];
      assert DigitChar(DigitValue(last)) == last;
      assert s == [last];
    } else {
      var init := s[..|s| - 1];
      ParseLeadingNonZero(init);
      ToDecimalParse(init);
      var p := ParseDecimal(init);
      var n := p * 10 + DigitValue(last);
      assert n / 10 == p && n % 10 == DigitValue(last);
      assert DigitChar(DigitValue(last)) == last;
      assert s == init + [last];
    }
  }

  /** Distinct numbers have distinct renderings. */
  lemma ToDecimalInjective(m: nat, n: nat)
    requires ToDecimal(m) == ToDecimal(n)
    ensures m == n
  {
    ParseToDecimal(m);
    ParseToDecimal(n);
  }

  /** A number below `10^k` takes at most `k` digits, for `k >= 1`. */
  lemma {:induction false} ToDecimalLength(n: nat, k: nat)
    requires k >= 1 && n < Pow10(k)
    ensures |ToDecimal(n)| <= k
    decreases k
  {
    if n >= 10 {
      assert k >= 2;
      assert n / 10 < Pow10(k - 1);
      ToDecimalLength(n / 10, k - 1);
    }
  }

  function Pow10(k: nat): (p: nat)
    ensures p >= 1
  {
    if k == 0 then 1 else 10 * Pow10(k - 1)
  }
}
