/** The player-count formatter (fmtPlayers, index.js:57-61): a count of a
    million or more is shown in millions with two decimals and an 'M', a
    count of a thousand or more in thousands with one decimal and a 'k', and
    anything smaller as the plain integer.

    Number.prototype.toFixed rounds the binary double nearest to n / 10^k.
    For an integral count that double is close enough to the decimal
    quotient that the rounding agrees with decimal rounding everywhere
    except at an exact half; the model rounds halves up (see
    NearestIsUnique for what is claimed). */
module Players {
  import opened Text

  const Million: nat := 1_000_000
  const Thousand: nat := 1_000

  function Pow10(k: nat): nat
  {
    if k == 0 then 1 else 10 * Pow10(k - 1)
  }

  /** n / d rounded to the nearest integer, a half rounded up. */
  function RoundDiv(n: nat, d: nat): (q: nat)
    requires d > 0
    ensures (2 * q - 1) * d <= 2 * n < (2 * q + 1) * d
  {
    var x := 2 * n + d;
    var q := x / (2 * d);
    assert q * (2 * d) <= x < q * (2 * d) + 2 * d;
    q
  }

  /** Two distinct multiples of d are at least d apart. */
  lemma GapAtLeast(a: int, b: int, d: nat)
    requires a > b
    ensures a * d - b * d >= d
  {
    var k := a - b - 1;
    assert a * d - b * d == k * d + d;
  }

  /** Any integer strictly closer than half a unit to n / d is the rounded
      quotient: away from exact halves the rounding is the only possible one. */
  lemma NearestIsUnique(n: nat, d: nat, q': int)
    requires d > 0
    requires 2 * (n - q' * d) < d && 2 * (q' * d - n) < d
    ensures q' == RoundDiv(n, d)
  {
    var q := RoundDiv(n, d);
    if q > q' {
      GapAtLeast(q, q', d);
      assert false;
    } else if q < q' {
      GapAtLeast(q', q, d);
      assert false;
    }
  }

  /** Euclidean division is determined by quotient and remainder. */
  lemma DivModUnique(v: int, m: nat, c: int, r: int)
    requires m > 0 && v == m * c + r && 0 <= r < m
    ensures v / m == c && v % m == r
  {
    var c', r' := v / m, v % m;
    assert v == c' * m + r';
    assert v == c * m + r;
    if c' > c {
      GapAtLeast(c', c, m);
      assert false;
    } else if c' < c {
      GapAtLeast(c, c', m);
      assert false;
    }
  }

  /** The low `places` decimal digits of v, zero-padded on the left. */
  function FracDigits(v: nat, places: nat): (r: string)
    ensures |r| == places && AllDigits(r)
  {
    if places == 0 then "" else FracDigits(v / 10, places - 1) + [DigitChar(v % 10)]
  }

  /** v with its low `places` decimal digits dropped. */
  function Drop(v: nat, places: nat): nat
  {
    if places == 0 then v else Drop(v / 10, places - 1)
  }

  /** The low digits of v are those of v / 10 followed by the last digit of v. */
  lemma FracDigitsStep(v: nat, places: nat)
    requires places > 0
    ensures DigitsValue(FracDigits(v, places)) == DigitsValue(FracDigits(v / 10, places - 1)) * 10 + v % 10
  {
    var r := FracDigits(v, places);
    assert r[..|r| - 1] == FracDigits(v / 10, places - 1);
    assert DigitValue(r[|r| - 1]) == v % 10;
  }

  /** The dropped part and the low digits together make up v. */
  lemma {:induction false} DropAndDigits(v: nat, places: nat)
    ensures Drop(v, places) * Pow10(places) + DigitsValue(FracDigits(v, places)) == v
  {
    if places > 0 {
      DropAndDigits(v / 10, places - 1);
      FracDigitsStep(v, places);
      Regroup(Drop(v / 10, places - 1), Pow10(places - 1), DigitsValue(FracDigits(v / 10, places - 1)), v);
    }
  }

  lemma Regroup(d: nat, p: nat, f: nat, v: nat)
    requires d * p + f == v / 10
    ensures d * (10 * p) + (f * 10 + v % 10) == v
  {
    assert d * (10 * p) == (d * p) * 10;
  }

  /** q / 10^places written with a decimal point and exactly `places`
      fractional digits, as toFixed(places) prints it. */
  function Fixed(q: nat, places: nat): (r: string)
    requires places > 0
    ensures |r| >= places + 2 && r[|r| - places - 1] == '.'
    ensures Canonical(r[..|r| - places - 1]) && AllDigits(r[|r| - places..])
  {
    NatToString(Drop(q, places)) + "." + FracDigits(q, places)
  }

  /** A fixed-point rendering reads back as the integer it was made from:
      the whole part and the fractional digits together give q. */
  lemma FixedReadsBack(q: nat, places: nat) returns (whole: string, frac: string)
    requires places > 0
    ensures Fixed(q, places) == whole + "." + frac
    ensures Canonical(whole) && AllDigits(frac) && |frac| == places
    ensures DigitsValue(whole) * Pow10(places) + DigitsValue(frac) == q
  {
    whole, frac := NatToString(Drop(q, places)), FracDigits(q, places);
    ParseShow(Drop(q, places));
    DropAndDigits(q, places);
  }

  function FmtPlayers(n: nat): (r: string)
    ensures |r| > 0
    ensures r[|r| - 1] == 'M' <==> n >= Million
    ensures r[|r| - 1] == 'k' <==> Thousand <= n < Million
    ensures n < Thousand ==> Canonical(r) && DigitsValue(r) == n
    ensures forall i :: 0 <= i < |r| ==> r[i] != ' '
  {
    if n >= Million then Fixed(RoundDiv(n, 10_000), 2) + "M"
    else if n >= Thousand then Fixed(RoundDiv(n, 100), 1) + "k"
    else ParseShow(n); NatToString(n)
  }

  /** Above a million the text is a number with two decimals and an 'M',
      within half a hundredth of n / 1,000,000. */
  lemma FmtMillions(n: nat) returns (whole: string, hundredths: string)
    requires n >= Million
    ensures FmtPlayers(n) == whole + "." + hundredths + "M"
    ensures Canonical(whole) && AllDigits(hundredths) && |hundredths| == 2
    ensures var shown := DigitsValue(whole) * 100 + DigitsValue(hundredths);
            (2 * shown - 1) * 10_000 <= 2 * n < (2 * shown + 1) * 10_000
  {
    whole, hundredths := FixedReadsBack(RoundDiv(n, 10_000), 2);
    assert Pow10(2) == 100;
  }

  /** Between a thousand and a million the text is a number with one
      decimal and a 'k', within half a tenth of n / 1,000. */
  lemma FmtThousands(n: nat) returns (whole: string, tenths: string)
    requires Thousand <= n < Million
    ensures FmtPlayers(n) == whole + "." + tenths + "k"
    ensures Canonical(whole) && AllDigits(tenths) && |tenths| == 1
    ensures var shown := DigitsValue(whole) * 10 + DigitsValue(tenths);
            (2 * shown - 1) * 100 <= 2 * n < (2 * shown + 1) * 100
  {
    whole, tenths := FixedReadsBack(RoundDiv(n, 100), 1);
    assert Pow10(1) == 10;
  }

  /** The worked examples: 2,500,000 players, 15,000, 42 and 123,456. */
  lemma FmtExamples()
    ensures FmtPlayers(2_500_000) == "2.50M"
    ensures FmtPlayers(15_000) == "15.0k"
    ensures FmtPlayers(42) == "42"
    ensures FmtPlayers(123_456) == "123.5k"
  {
    FmtMillionsExample();
    FmtThousandsExample();
    FmtPlainExample();
  }

  lemma FmtMillionsExample()
    ensures FmtPlayers(2_500_000) == "2.50M"
  {
    assert RoundDiv(2_500_000, 10_000) == 250;
    assert Drop(250, 2) == 2;
    assert FracDigits(250, 2) == "50";
    assert NatToString(2) == "2";
  }

  lemma FmtThousandsExample()
    ensures FmtPlayers(15_000) == "15.0k"
    ensures FmtPlayers(123_456) == "123.5k"
  {
    assert RoundDiv(15_000, 100) == 150;
    assert Drop(150, 1) == 15;
    assert FracDigits(150, 1) == "0";
    assert NatToString(15) == "15";
    assert RoundDiv(123_456, 100) == 1235;
    assert Drop(1235, 1) == 123;
    assert FracDigits(1235, 1) == "5";
    assert NatToString(12) == "12";
    assert NatToString(123) == "123";
  }

  lemma FmtPlainExample()
    ensures FmtPlayers(42) == "42"
  {
    assert NatToString(4) == "4";
  }

  /** Just under a million the tenths round up to a thousand, so the
      thousands branch shows "1000.0k" rather than moving to 'M'. */
  lemma FmtJustUnderMillion()
    ensures FmtPlayers(999_999) == "1000.0k"
  {
    assert RoundDiv(999_999, 100) == 10_000;
    assert Drop(10_000, 1) == 1000;
    assert FracDigits(10_000, 1) == "0";
    assert NatToString(1) == "1";
    assert NatToString(10) == "10";
    assert NatToString(100) == "100";
    assert NatToString(1000) == "1000";
  }
}
