/**
 * Decimal text for scores: a score in hundredths printed with exactly two
 * decimals, as the `:.2f` format does for the already rounded score.
 */
module Decimal {
  import opened Wrappers

  /** The character of a decimal digit. */
  function Digit(d: nat): (c: char)
    requires d < 10
    ensures '0' <= c <= '9'
    ensures (c as int) - ('0' as int) == d
  {
    ('0' as int + d) as char
  }

  /** The value of a decimal digit character. */
  function DigitValue(c: char): (d: nat)
    requires '0' <= c <= '9'
    ensures d < 10
  {
    (c as int) - ('0' as int)
  }

  /** Every character of `s` is a decimal digit. */
  predicate AllDigits(s: string)
  {
    forall i :: 0 <= i < |s| ==> '0' <= s[i] <= '9'
  }

  /** The decimal numeral of `n`, without leading zeros. */
  function Numeral(n: nat): (s: string)
    ensures |s| > 0 && AllDigits(s)
  {
    if n < 10 then [Digit(n)] else Numeral(n / 10) + [Digit(n % 10)]
  }

  /** The value of a non-empty string of decimal digits. */
  function NumeralValue(s: string): nat
    requires |s| > 0 && AllDigits(s)
  {
    if |s| == 1 then DigitValue(s[0])
    else NumeralValue(s[..|s| - 1]) * 10 + DigitValue(s[|s| - 1])
  }

  /** Reading a numeral back gives the number it was printed from. */
  lemma {:induction false} NumeralRoundTrip(n: nat)
    ensures NumeralValue(Numeral(n)) == n
  {
    if n >= 10 {
      var s := Numeral(n);
      assert s[..|s| - 1] == Numeral(n / 10);
      NumeralRoundTrip(n / 10);
    }
  }

  /** A score in hundredths with two decimals: 85 is "0.85", 100 is "1.00", 5 is "0.05". */
  function TwoDecimals(h: nat): (s: string)
    ensures |s| >= 4 && s[|s| - 3] == '.'
    ensures AllDigits(s[..|s| - 3]) && AllDigits(s[|s| - 2..])
  {
    Numeral(h / 100) + "." + [Digit(h / 10 % 10), Digit(h % 10)]
  }

  /** Reads text of the form digits "." digit digit back as hundredths. */
  function ParseTwoDecimals(s: string): (r: Option<nat>)
    ensures r.Some? ==> |s| >= 4 && s[|s| - 3] == '.' && AllDigits(s[..|s| - 3]) && AllDigits(s[|s| - 2..])
  {
    if |s| >= 4 && s[|s| - 3] == '.' && AllDigits(s[..|s| - 3]) && AllDigits(s[|s| - 2..]) then
      Some(NumeralValue(s[..|s| - 3]) * 100 + DigitValue(s[|s| - 2]) * 10 + DigitValue(s[|s| - 1]))
    else
      None
  }

  /** A number is its hundreds, tens digit and units digit put back together. */
  lemma SplitHundredths(h: nat)
    ensures (h / 100) * 100 + (h / 10 % 10) * 10 + h % 10 == h
  {
    assert h / 100 == (h / 10) / 10;
  }

  /** The two-decimal text of a score reads back as that score. */
  lemma TwoDecimalsRoundTrip(h: nat)
    ensures ParseTwoDecimals(TwoDecimals(h)) == Some(h)
  {
    var s := TwoDecimals(h);
    var tens, units := h / 10 % 10, h % 10;
    assert s[..|s| - 3] == Numeral(h / 100);
    assert s[|s| - 2] == Digit(tens) && s[|s| - 1] == Digit(units);
    NumeralRoundTrip(h / 100);
    SplitHundredths(h);
  }

  /** Different scores print differently. */
  lemma TwoDecimalsInjective(h1: nat, h2: nat)
    requires TwoDecimals(h1) == TwoDecimals(h2)
    ensures h1 == h2
  {
    TwoDecimalsRoundTrip(h1);
    TwoDecimalsRoundTrip(h2);
  }

  /** The extremes of the score range print as "1.00" and "0.00". */
  lemma TwoDecimalsExtremes()
    ensures TwoDecimals(100) == "1.00"
    ensures TwoDecimals(0) == "0.00"
    ensures TwoDecimals(15) == "0.15"
  {
  }
}
