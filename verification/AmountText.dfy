/** What the texts of amounts say: the text an amount is hashed under, and the text a fixture file shows. */
module AmountText {
  import opened Wrappers
  import opened Digits
  import opened Decimals
  import opened Quantisation
  import opened MinorUnits

  // ----- the text an amount is hashed under -----------------------------------------------------------

  lemma TenToFour()
    ensures Pow10(4) == 10000
  {
    assert Pow10(2) == 100;
    Pow10Sum(2, 2);
  }

  /** Whole part and four padded digits together spell the units. */
  lemma UnitsSplit(units: nat)
    ensures var a, b := DigitsOf(units / 10000), PadLeft(DigitsOf(units % 10000), 4);
            ValueOf(a + b) == units && |b| == 4
  {
    var a, b := DigitsOf(units / 10000), PadLeft(DigitsOf(units % 10000), 4);
    TenToFour();
    DigitCount(units % 10000, 4);
    PadValue(DigitsOf(units % 10000), 4);
    ValueOfDigitsOf(units / 10000);
    ValueOfDigitsOf(units % 10000);
    ValueOfConcat(a, b);
  }

  lemma CanonicalTextIsPointed(negative: bool, units: nat)
    ensures CanonicalText(negative, units)
            == MinorUnits.WithSign(negative, Pointed(DigitsOf(units / 10000), PadLeft(DigitsOf(units % 10000), 4)))
  {
    var a, b := TextOf(DigitsOf(units / 10000)), TextOf(PadLeft(DigitsOf(units % 10000), 4));
    assert "" + a + "." + b == a + "." + b;
    assert "-" + a + "." + b == "-" + (a + "." + b);
  }

  lemma CanonicalTextReads(negative: bool, units: nat)
    ensures ParseDecimal(CanonicalText(negative, units)) == Some(Finite(negative, DigitsOf(units), 0 - 4))
  {
    UnitsSplit(units);
    CanonicalTextIsPointed(negative, units);
    ParsePointed(negative, DigitsOf(units / 10000), PadLeft(DigitsOf(units % 10000), 4), units, 4);
  }

  /** The value of a number of ten-thousandths with a sign. */
  lemma UnitsValue(negative: bool, units: nat)
    ensures Value(Finite(negative, DigitsOf(units), 0 - 4)) * 10000.0
            == (if negative then 0 - units else units) as real
  {
    ValueOfDigitsOf(units);
    TenToFour();
    NegativeScale(if negative then 0 - units else units, 4);
  }

  lemma SameTenThousandths(x: real, y: real)
    requires x * 10000.0 == y * 10000.0
    ensures x == y
  {}

  /** The text an amount is hashed under is the amount: read back it is a decimal with exactly four places and
      the same value, and a zero has no sign. */
  lemma CanonicalAmountReads(d: Decimal)
    requires CanonicalAmount(d).Some?
    ensures var read := ParseDecimal(CanonicalAmount(d).value);
            && read.Some? && read.value.Finite? && read.value.exponent == -4
            && Value(read.value) == Value(d)
            && (read.value.negative ==> Value(d) != 0.0)
  {
    var units := QuantisedUnits(d);
    var negative := d.negative && units != 0;
    CanonicalAmountText(d);
    CanonicalTextReads(negative, units);
    UnitsValue(negative, units);
    SameTenThousandths(Value(Finite(negative, DigitsOf(units), 0 - 4)), Value(d));
  }

  /** An amount has such a text exactly when it is finite, a whole number of ten-thousandths, and below the
      magnitude bound. */
  lemma CanonicalAmountExistsIff(d: Decimal)
    ensures CanonicalAmount(d).Some? <==>
            && d.Finite? && IsIntegral(Value(d) * 10000.0)
            && -10000000000000000.0 < Value(d) < 10000000000000000.0
  {
    if d.Finite? {
      ScaleTestIsIntegrality(d);
    }
  }

  // ----- the text a fixture file shows -------------------------------------------------------------------

  /** A sign exactly for negative units, the whole part without superfluous zeros, and, unless the currency has
      no minor digits, a point and exactly that many digits. Sign aside, the digits spell the units. */
  predicate Spells(s: string, whole: seq<Digit>, fraction: seq<Digit>, minorUnits: int, scale: nat) {
    && whole != [] && (|whole| > 1 ==> whole[0] != 0) && |fraction| == scale
    && ValueOf(whole + fraction) == (if minorUnits < 0 then -minorUnits else minorUnits)
    && s == (if minorUnits < 0 then "-" else "")
            + (if scale == 0 then TextOf(whole) else TextOf(whole) + "." + TextOf(fraction))
  }

  lemma WholeOfPadded(n: nat, scale: nat)
    ensures var padded := PadLeft(DigitsOf(n), scale + 1);
            var k := |padded| - scale;
            && k >= 1 && ValueOf(padded) == n && padded[..k] + padded[k..] == padded
            && (k > 1 ==> padded[0] != 0)
  {
    PadValue(DigitsOf(n), scale + 1);
    ValueOfDigitsOf(n);
  }

  lemma PlainTextMeans(n: nat, scale: nat) returns (whole: seq<Digit>, fraction: seq<Digit>)
    ensures whole != [] && (|whole| > 1 ==> whole[0] != 0) && |fraction| == scale
    ensures ValueOf(whole + fraction) == n
    ensures PlainText(n, scale) == if scale == 0 then TextOf(whole) else TextOf(whole) + "." + TextOf(fraction)
  {
    var padded := PadLeft(DigitsOf(n), scale + 1);
    WholeOfPadded(n, scale);
    whole, fraction := padded[..|padded| - scale], padded[|padded| - scale..];
    if scale == 0 {
      assert whole == DigitsOf(n);
    }
  }

  /** What the text of an amount in minor units is. */
  lemma RenderedMeans(minorUnits: int, scale: nat)
    ensures exists whole, fraction :: Spells(Rendered(minorUnits, scale), whole, fraction, minorUnits, scale)
  {
    var n := Absolute(minorUnits);
    var whole, fraction := PlainTextMeans(n, scale);
    assert "" + PlainText(n, scale) == PlainText(n, scale);
    assert Spells(Rendered(minorUnits, scale), whole, fraction, minorUnits, scale);
  }

  /** `str` of a decimal whose exponent is not positive and which is not tiny is plain, and reads back as the very
      same decimal. A decimal's digits are those of some number: none is superfluous. */
  lemma PlainTextReads(negative: bool, n: nat, scale: nat)
    requires scale < |DigitsOf(n)| + 6
    ensures var d := Finite(negative, DigitsOf(n), 0 - scale);
            ParseDecimal(Render(d)) == Some(d)
  {
    RenderPlain(negative, DigitsOf(n), scale);
    ParsePlainText(negative, n, scale);
  }

  lemma MantissaReads(negative: bool, ds: seq<Digit>, n: nat, places: int)
    requires ds != [] && ValueOf(ds) == n && places == 1 - |ds|
    ensures ParseDecimal(Mantissa(negative, ds)) == Some(Finite(negative, DigitsOf(n), places))
  {
    if |ds| == 1 {
      ParseWhole(negative, ds, n);
    } else {
      PointedMantissaReads(negative, ds[..1], ds[1..], n, ds);
    }
  }

  lemma PointedMantissaReads(negative: bool, a: seq<Digit>, b: seq<Digit>, n: nat, ds: seq<Digit>)
    requires |ds| > 1 && a == ds[..1] && b == ds[1..] && ValueOf(ds) == n
    ensures ParseDecimal(MinorUnits.WithSign(negative, Pointed(a, b)))
            == Some(Finite(negative, DigitsOf(n), 1 - |ds|))
  {
    FirstAndRest(ds);
    ParsePointed(negative, a, b, n, |ds| - 1);
  }

  lemma FirstAndRest(ds: seq<Digit>)
    requires ds != []
    ensures ds[..1] != [] && ds[..1] + ds[1..] == ds && |ds[1..]| == |ds| - 1
  {}

  /** One digit, and the others after a point. */
  function Mantissa(negative: bool, ds: seq<Digit>): string
    requires ds != []
  {
    MinorUnits.WithSign(negative, if |ds| == 1 then TextOf(ds) else Pointed(ds[..1], ds[1..]))
  }

  /** The mantissa reads back as the number's digits with all but the first after the point. */
  lemma MantissaOfNumber(negative: bool, ds: seq<Digit>, n: nat)
    requires ds != [] && ds == DigitsOf(n)
    ensures ParseDecimal(Mantissa(negative, ds)) == Some(Finite(negative, ds, 1 - |ds|))
  {
    DigitsDenote(ds, n);
    MantissaReads(negative, ds, n, 1 - |ds|);
  }

  lemma DigitsDenote(ds: seq<Digit>, n: nat)
    requires ds == DigitsOf(n)
    ensures ValueOf(ds) == n
  {
    ValueOfDigitsOf(n);
  }

  /** The text is the mantissa times ten to the exponent of its first digit. */
  predicate Scientific(negative: bool, ds: seq<Digit>, exponent: int)
    requires ds != []
  {
    var e := exponent + |ds| - 1;
    Render(Finite(negative, ds, exponent))
    == Mantissa(negative, ds) + "E" + (if e >= 0 then "+" else "") + IntText(e)
  }

  /** Every decimal that is not written plain is written as its mantissa, a number between one and ten, times the
      power of ten that makes up for the moved point. */
  lemma ScientificNotation(negative: bool, ds: seq<Digit>, exponent: int)
    requires ds != [] && (exponent > 0 || exponent + |ds| <= -6)
    ensures Scientific(negative, ds, exponent)
  {
    var e := exponent + |ds| - 1;
    MantissaText(ds);
    SignBeforeExponent(negative, if |ds| == 1 then TextOf(ds) else Pointed(ds[..1], ds[1..]),
                       "E" + (if e >= 0 then "+" else "") + IntText(e));
    Glue(Mantissa(negative, ds), "E" + (if e >= 0 then "+" else ""), IntText(e));
    Glue(Mantissa(negative, ds), "E", if e >= 0 then "+" else "");
  }

  lemma MantissaText(ds: seq<Digit>)
    requires ds != []
    ensures |ds| == 1 ==> TextOf(ds) + TextOf(Zeros(0)) == TextOf(ds)
    ensures |ds| > 1 ==> TextOf(ds)[..1] + "." + TextOf(ds)[1..] == Pointed(ds[..1], ds[1..])
  {
    assert TextOf(ds[..1]) == TextOf(ds)[..1] && TextOf(ds[1..]) == TextOf(ds)[1..];
  }

  lemma SignBeforeExponent(negative: bool, body: string, exponent: string)
    ensures MinorUnits.WithSign(negative, body + exponent) == MinorUnits.WithSign(negative, body) + exponent
  {
    assert "-" + (body + exponent) == ("-" + body) + exponent;
  }

  /** Each digit is written with its own character. */
  lemma DigitCharacters(d: Digit)
    ensures TextOf([d]) == ["0123456789"[d]]
  {
    assert "0123456789"[d] == '0' + d as char;
  }

  // ----- worked examples from the program's documentation ------------------------------------------------

  lemma TwoDigits(a: nat, b: nat)
    requires 1 <= a <= 9 && b <= 9
    ensures DigitsOf(10 * a + b) == [a, b]
  {
    assert (10 * a + b) / 10 == a && (10 * a + b) % 10 == b;
    assert DigitsOf(a) == [a];
  }

  /** 12.5 is hashed as 12.5000. */
  lemma TwelveAndAHalf()
    ensures CanonicalText(false, 125000) == "12.5000"
  {
    assert 125000 / 10000 == 12 && 125000 % 10000 == 5000;
    TwoDigits(1, 2);
    assert DigitsOf(5) == [5] && DigitsOf(50) == [5, 0] && DigitsOf(500) == [5, 0, 0];
    assert DigitsOf(5000) == [5, 0, 0, 0];
    assert TextOf([1, 2]) == "12" && TextOf([5, 0, 0, 0]) == "5000";
  }

  lemma DigitsOf12345()
    ensures DigitsOf(12345) == [1, 2, 3, 4, 5]
  {
    assert DigitsOf(1) == [1] && DigitsOf(12) == [1, 2] && DigitsOf(123) == [1, 2, 3];
    assert DigitsOf(1234) == [1, 2, 3, 4];
  }

  /** -12345 minor units are -123.45 in euro and -12345 in yen. */
  lemma MinusTwelveThousand()
    ensures Rendered(-12345, 2) == "-123.45"
    ensures Rendered(-12345, 0) == "-12345"
  {
    DigitsOf12345();
    assert [1, 2, 3, 4, 5][..3] == [1, 2, 3] && [1, 2, 3, 4, 5][3..] == [4, 5];
    assert TextOf([1, 2, 3]) == "123" && TextOf([4, 5]) == "45" && TextOf([1, 2, 3, 4, 5]) == "12345";
  }

  /** Integers, as seeds and versions are written. */
  lemma IntegerTexts()
    ensures IntText(0) == "0" && IntText(12345) == "12345" && IntText(-12345) == "-12345"
  {
    DigitsOf12345();
    assert DigitsOf(0) == [0];
    assert TextOf([0]) == "0" && TextOf([1, 2, 3, 4, 5]) == "12345";
  }
}
