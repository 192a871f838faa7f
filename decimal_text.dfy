/**
 * Decimal digit strings: how JavaScript writes a non-negative integer or a
 * bigint as text (`'' + n`), zero padding to a fixed width, reading digits
 * back, and the two string shapes the value transforms validate with a
 * regular expression.
 */
module DecimalText {

  predicate IsDigit(c: char) {
    '0' <= c <= '9'
  }

  predicate AllDigits(s: string) {
    forall i :: 0 <= i < |s| ==> IsDigit(s[i])
  }

  /** One or more digits: the regular expression `\d+`. */
  predicate Digits1(s: string) {
    |s| > 0 && AllDigits(s)
  }

  function DigitChar(d: nat): (c: char)
    requires d < 10
    ensures IsDigit(c) && c as int - '0' as int == d
  {
    (d + '0' as int) as char
  }

  function DigitValue(c: char): (d: nat)
    requires IsDigit(c)
    ensures d < 10
  {
    c as int - '0' as int
  }

  function Pow10(w: nat): (p: nat)
    ensures p >= 1
  {
    if w == 0 then 1 else 10 * Pow10(w - 1)
  }

  /** `'' + n` for a non-negative integer: its shortest decimal form. */
  function Decimal(n: nat): (s: string)
    ensures Digits1(s)
    ensures |s| > 1 ==> s[0] != '0'
    decreases n
  {
    if n < 10 then [DigitChar(n)] else Decimal(n / 10) + [DigitChar(n % 10)]
  }

  /** The number a digit string denotes (leading zeros allowed). */
  function DigitsValue(s: string): nat
    requires AllDigits(s)
  {
    if s == [] then 0 else 10 * DigitsValue(s[..|s| - 1]) + DigitValue(s[|s| - 1])
  }

  /** Reading the written form back gives the number. */
  lemma {:induction false} DecimalRoundTrip(n: nat)
    ensures DigitsValue(Decimal(n)) == n
    decreases n
  {
    if n >= 10 {
      var s := Decimal(n);
      assert s[..|s| - 1] == Decimal(n / 10);
      DecimalRoundTrip(n / 10);
    }
  }

  /** The written form of `n` has at most `w` digits exactly when `n < 10^w`. */
  lemma {:induction false} DecimalLength(n: nat, w: nat)
    requires w >= 1
    ensures |Decimal(n)| <= w <==> n < Pow10(w)
    decreases w
  {
    if n >= 10 {
      assert |Decimal(n)| == |Decimal(n / 10)| + 1;
      assert n == 10 * (n / 10) + n % 10;
      if w > 1 {
        DecimalLength(n / 10, w - 1);
      } else {
        assert |Decimal(n / 10)| >= 1;
      }
    } else if w > 1 {
      assert Pow10(w) == 10 * Pow10(w - 1);
    }
  }

  function Zeros(k: nat): (z: string)
    ensures |z| == k && AllDigits(z)
  {
    seq(k, _ => '0')
  }

  lemma {:induction false} ZerosValue(k: nat)
    ensures DigitsValue(Zeros(k)) == 0
    decreases k
  {
    if k > 0 {
      assert Zeros(k)[..k - 1] == Zeros(k - 1);
      ZerosValue(k - 1);
    }
  }

  /** Leading zeros do not change the number a digit string denotes. */
  lemma {:induction false} LeadingZeros(k: nat, s: string)
    requires AllDigits(s)
    ensures AllDigits(Zeros(k) + s) && DigitsValue(Zeros(k) + s) == DigitsValue(s)
    decreases |s|
  {
    var t := Zeros(k) + s;
    if s == [] {
      assert t == Zeros(k);
      ZerosValue(k);
    } else {
      assert t[..|t| - 1] == Zeros(k) + s[..|s| - 1];
      assert t[|t| - 1] == s[|s| - 1];
      LeadingZeros(k, s[..|s| - 1]);
    }
  }

  /** `n` written in decimal and left-padded with `'0'` to `width` characters;
      a number that needs more digits is written in full. */
  function ZeroPad(n: nat, width: nat): (r: string)
    ensures |r| == if |Decimal(n)| < width then width else |Decimal(n)|
    ensures AllDigits(r) && DigitsValue(r) == n
    ensures width >= 1 ==> (|r| == width <==> n < Pow10(width))
  {
    var digits := Decimal(n);
    var pad := if |digits| < width then width - |digits| else 0;
    LeadingZeros(pad, digits);
    DecimalRoundTrip(n);
    if width >= 1 then DecimalLength(n, width); Zeros(pad) + digits else Zeros(pad) + digits
  }

  /** The regular expression `^-?\d+$` (JavaScript `\d` is ASCII only and `$`
      without the `m` flag matches only at the end of the input). */
  predicate MatchesIntegerPattern(s: string) {
    Digits1(s) || (|s| > 0 && s[0] == '-' && Digits1(s[1..]))
  }

  /** `\d+(\.\d+)?`. */
  predicate MatchesUnsignedDecimal(s: string) {
    Digits1(s) || exists k :: 0 < k < |s| - 1 && s[k] == '.' && Digits1(s[..k]) && Digits1(s[k + 1..])
  }

  /** The regular expression `^(-?\d+(\.\d+)?|NaN|-?Infinity)$`. */
  predicate MatchesDoublePattern(s: string) {
    || s == "NaN" || s == "Infinity" || s == "-Infinity"
    || MatchesUnsignedDecimal(s)
    || (|s| > 0 && s[0] == '-' && MatchesUnsignedDecimal(s[1..]))
  }

  /** The integer an `^-?\d+$` string denotes. */
  function ParseIntegerText(s: string): int
    requires MatchesIntegerPattern(s)
  {
    if Digits1(s) then DigitsValue(s) as int else -(DigitsValue(s[1..]) as int)
  }

  /** `'' + b` for a bigint `b`. */
  function IntToDecimal(i: int): (s: string)
    ensures MatchesIntegerPattern(s)
    ensures ParseIntegerText(s) == i
    ensures s[0] == '-' <==> i < 0
    ensures var digits := if i < 0 then s[1..] else s; |digits| > 1 ==> digits[0] != '0'
    ensures s != "-0"
  {
    if i < 0 then
      var digits := Decimal(-i);
      DecimalRoundTrip(-i);
      assert ("-" + digits)[1..] == digits;
      assert digits != "0";
      "-" + digits
    else
      DecimalRoundTrip(i);
      Decimal(i)
  }

  /** Every `stringInt` text is also a `stringDouble` text. */
  lemma IntegerPatternIsDoublePattern(s: string)
    requires MatchesIntegerPattern(s)
    ensures MatchesDoublePattern(s)
  {
  }

  /** The bigint text is injective: different integers are written differently. */
  lemma IntToDecimalInjective(i: int, j: int)
    requires IntToDecimal(i) == IntToDecimal(j)
    ensures i == j
  {
    assert ParseIntegerText(IntToDecimal(i)) == i;
  }
}
