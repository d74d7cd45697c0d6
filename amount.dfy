/**
 * Rendering of share amounts. `share.toString()` is the decimal numeral of
 * the unsigned integer; the description shows
 * `new BigNumber(share).dividedBy(10 ** ETH_DECIMALS).toFixed(2)`, which is
 * exact decimal arithmetic: dividing by 10^18 leaves at most 18 fraction
 * digits (fewer than bignumber.js's 20 default decimal places), and
 * `toFixed(2)` then rounds half up (the default rounding mode, which is
 * the same as half away from zero on non-negative values).
 */
module Amount {
  import opened Wrappers

  /** 10 ** ETH_DECIMALS with ETH_DECIMALS = 18: raw units in one share. */
  const Scale: nat := 1_000_000_000_000_000_000

  predicate IsDigit(c: char) {
    '0' <= c <= '9'
  }

  predicate IsDigits(s: string) {
    forall i :: 0 <= i < |s| ==> IsDigit(s[i])
  }

  /** A numeral as toString() prints it: digits only, never empty, no leading zero except "0" itself. */
  predicate IsCanonical(s: string) {
    |s| >= 1 && IsDigits(s) && (|s| > 1 ==> s[0] != '0')
  }

  function DigitChar(d: nat): (c: char)
    requires d < 10
    ensures IsDigit(c) && c as int - '0' as int == d
  {
    ('0' as int + d) as char
  }

  function DigitValue(c: char): (d: nat)
    requires IsDigit(c)
    ensures d < 10 && '0' as int + d == c as int
  {
    c as int - '0' as int
  }

  /** The decimal numeral of `n`, as `toString()` prints an unsigned integer. */
  function DecimalString(n: nat): (s: string)
    ensures IsCanonical(s)
    ensures s[0] == '0' <==> n == 0
    decreases n
  {
    if n < 10 then [DigitChar(n)] else DecimalString(n / 10) + [DigitChar(n % 10)]
  }

  /** The value of a string of decimal digits, most significant first. */
  function DigitsValue(s: string): (n: nat)
    requires IsDigits(s)
    decreases |s|
  {
    if s == [] then 0 else 10 * DigitsValue(s[..|s| - 1]) + DigitValue(s[|s| - 1])
  }

  /** Reads a canonical numeral back; anything else is rejected. */
  function ParseDecimal(s: string): (r: Option<nat>)
  {
    if IsCanonical(s) then Some(DigitsValue(s)) else None
  }

  /** Reading back what toString() printed gives the number again. */
  lemma {:induction false} DecimalRoundTrip(n: nat)
    ensures ParseDecimal(DecimalString(n)) == Some(n)
    decreases n
  {
    var s := DecimalString(n);
    if n >= 10 {
      var p := DecimalString(n / 10);
      DecimalRoundTrip(n / 10);
      assert s[..|s| - 1] == p;
      assert DigitsValue(s) == 10 * DigitsValue(p) + n % 10;
    }
  }

  /** A numeral whose first digit is not zero has a positive value. */
  lemma {:induction false} LeadingDigitPositive(s: string)
    requires IsDigits(s) && |s| >= 1 && s[0] != '0'
    ensures DigitsValue(s) >= 1
    decreases |s|
  {
    if |s| > 1 {
      var p := s[..|s| - 1];
      assert p[0] == s[0];
      LeadingDigitPositive(p);
    }
  }

  /** Every canonical numeral is what toString() prints for its value:
      together with DecimalRoundTrip, printing and parsing are inverse bijections. */
  lemma {:induction false} CanonicalRoundTrip(s: string)
    requires IsCanonical(s)
    ensures DecimalString(DigitsValue(s)) == s
    decreases |s|
  {
    var n := DigitsValue(s);
    var c := s[|s| - 1];
    if |s| == 1 {
      assert s == [c];
    } else {
      var p := s[..|s| - 1];
      assert p[0] == s[0];
      LeadingDigitPositive(p);
      CanonicalRoundTrip(p);
      var v := DigitsValue(p);
      assert n == 10 * v + DigitValue(c);
      assert n / 10 == v && n % 10 == DigitValue(c);
      assert s == p + [c];
    }
  }

  /**
   * share / 10^18 rounded half up to two decimal places, counted in
   * hundredths: the nearest whole number of hundredths, a tie going up.
   */
  function RoundedHundredths(share: nat): (c: nat)
    ensures c * Scale <= 100 * share + Scale / 2 < (c + 1) * Scale
  {
    (100 * share + Scale / 2) / Scale
  }

  /** `new BigNumber(share).dividedBy(10 ** ETH_DECIMALS).toFixed(2)`. */
  function FormatShares(share: nat): (s: string)
    ensures |s| >= 4 && s[|s| - 3] == '.'
  {
    var c := RoundedHundredths(share);
    DecimalString(c / 100) + "." + [DigitChar(c % 100 / 10), DigitChar(c % 10)]
  }

  /** The rendered amount is a canonical integer numeral, a point and exactly two digits. */
  lemma FormatSharesShape(share: nat)
    ensures var s := FormatShares(share);
      IsCanonical(s[..|s| - 3]) && IsDigits(s[|s| - 2..])
  {
    var c := RoundedHundredths(share);
    var whole, frac := DecimalString(c / 100), [DigitChar(c % 100 / 10), DigitChar(c % 10)];
    assert FormatShares(share)[..|whole|] == whole;
    assert FormatShares(share)[|whole| + 1..] == frac;
  }

  /** Reads "<integer>.<two digits>" back as a count of hundredths. */
  function ParseHundredths(s: string): (r: Option<nat>)
  {
    if |s| >= 4 && s[|s| - 3] == '.' && IsCanonical(s[..|s| - 3]) && IsDigits(s[|s| - 2..])
    then Some(100 * DigitsValue(s[..|s| - 3]) + DigitsValue(s[|s| - 2..]))
    else None
  }

  /** The two fraction digits printed for `h` hundredths read back as `h`. */
  lemma TwoDigitsValue(h: nat)
    requires h < 100
    ensures DigitsValue([DigitChar(h / 10), DigitChar(h % 10)]) == h
  {
    var frac := [DigitChar(h / 10), DigitChar(h % 10)];
    assert frac[..1] == [frac[0]];
    assert frac[..1][..0] == [];
    assert DigitsValue(frac[..1]) == h / 10;
    assert DigitsValue(frac) == 10 * (h / 10) + h % 10;
  }

  /** The rendered amount carries exactly the rounded value, to the hundredth. */
  lemma FormatSharesRoundTrip(share: nat)
    ensures ParseHundredths(FormatShares(share)) == Some(RoundedHundredths(share))
  {
    var c := RoundedHundredths(share);
    var whole := DecimalString(c / 100);
    var frac := [DigitChar(c % 100 / 10), DigitChar(c % 10)];
    var s := FormatShares(share);
    assert s == whole + "." + frac;
    assert s[..|s| - 3] == whole;
    assert s[|s| - 2..] == frac;
    DecimalRoundTrip(c / 100);
    TwoDigitsValue(c % 100);
  }

  /** A share of 0 or 1 raw unit renders as "0.00", as the handlers' tests expect. */
  lemma FormatSharesTiny()
    ensures FormatShares(0) == "0.00"
    ensures FormatShares(1) == "0.00"
  {
  }

  /** Whole shares render with two zero decimals. */
  lemma FormatSharesWhole()
    ensures FormatShares(1000000000000000000) == "1.00"
    ensures FormatShares(2000000000000000000) == "2.00"
  {
  }

  /** Half a hundredth rounds up, anything less rounds down. */
  lemma FormatSharesRounding()
    ensures FormatShares(999999999999999999) == "1.00"
    ensures FormatShares(994999999999999999) == "0.99"
    ensures FormatShares(995000000000000000) == "1.00"
  {
  }

  /** An amount far beyond 64 bits is rendered exactly. */
  lemma FormatSharesLarge()
    ensures FormatShares(123456789012345678901234567890) == "123456789012.35"
  {
    assert RoundedHundredths(123456789012345678901234567890) == 12345678901235;
    assert DecimalString(1) == "1";
    assert DecimalString(12) == "12";
    assert DecimalString(123) == "123";
    assert DecimalString(1234) == "1234";
    assert DecimalString(12345) == "12345";
    assert DecimalString(123456) == "123456";
    assert DecimalString(1234567) == "1234567";
    assert DecimalString(12345678) == "12345678";
    assert DecimalString(123456789) == "123456789";
    assert DecimalString(1234567890) == "1234567890";
    assert DecimalString(12345678901) == "12345678901";
    assert DecimalString(123456789012) == "123456789012";
  }
}
