/** Building an amount from integer minor units by string construction, rendering it, reading it back. */
module MinorUnits {
  import opened Wrappers
  import opened Digits
  import opened Decimals
  import opened Quantisation

  datatype Money = Ok(value: Decimal) | TooPrecise | TooLarge

  // ----- Decimal(text) and str(Decimal) -----------------------------------------------------------

  /** A numeral split at its first point. */
  function SplitAtPoint(s: string): (string, Option<string>) {
    if s == [] then ("", None)
    else if s[0] == '.' then ("", Some(s[1..]))
    else
      var (whole, fraction) := SplitAtPoint(s[1..]);
      ([s[0]] + whole, fraction)
  }

  /** `Decimal(text)` for numerals without an exponent: sign, digits, and digits after a point. Leading
      zeros are dropped from the digits and the fraction's length fixes the exponent. */
  function ParseDecimal(s: string): Option<Decimal> {
    var negative := s != [] && s[0] == '-';
    ParseUnsigned(negative, if negative then s[1..] else s)
  }

  function ParseUnsigned(negative: bool, body: string): Option<Decimal> {
    var (whole, fraction) := SplitAtPoint(body);
    ParseParts(negative, whole, if fraction.Some? then fraction.value else "")
  }

  function ParseParts(negative: bool, whole: string, after: string): Option<Decimal> {
    if AllDigits(whole + after) && whole + after != "" then
      Some(Finite(negative, DigitsOf(ValueOf(DigitsIn(whole + after))), -|after|))
    else None
  }

  /** `str(Decimal)`: plain notation while the exponent is at most zero and the number is not tiny,
      scientific notation otherwise. */
  function Render(d: Decimal): string
    requires d.Finite? && d.digits != []
  {
    var text, n := TextOf(d.digits), |d.digits|;
    var left := d.exponent + n;
    var point := if d.exponent <= 0 && left > -6 then left else 1;
    WithSign(d.negative,
      (if point <= 0 then "0." + TextOf(Zeros(-point)) + text
       else if point >= n then text + TextOf(Zeros(point - n))
       else text[..point] + "." + text[point..])
      + if left == point then "" else "E" + (if left - point >= 0 then "+" else "") + IntText(left - point))
  }

  // ----- money(minor_units, currency) ---------------------------------------------------------------

  function Absolute(n: int): nat {
    if n < 0 then -n else n
  }

  /** The padded digits, split `scale` places from the right. */
  function PlainText(n: nat, scale: nat): string {
    PlainDigits(DigitsOf(n), scale)
  }

  function PlainDigits(ds: seq<Digit>, scale: nat): string {
    var padded := PadLeft(ds, scale + 1);
    assert |padded| >= scale + 1;
    if scale == 0 then TextOf(ds)
    else Pointed(padded[..|padded| - scale], padded[|padded| - scale..])
  }

  function Pointed(whole: seq<Digit>, fraction: seq<Digit>): string {
    TextOf(whole) + "." + TextOf(fraction)
  }

  function WithSign(negative: bool, body: string): string {
    if negative then "-" + body else body
  }

  function Rendered(minorUnits: int, scale: nat): string {
    WithSign(minorUnits < 0, PlainText(Absolute(minorUnits), scale))
  }

  /** `money`: refuse a currency finer than four places, build the text, parse it, refuse an amount at or
      beyond the magnitude bound. */
  function Make(minorUnits: int, scale: nat): Money {
    if scale > MAX_SCALE then TooPrecise
    else
      match ParseDecimal(Rendered(minorUnits, scale))
      case None => TooLarge
      case Some(d) => if d.Finite? && WithinMagnitude(d) then Ok(d) else TooLarge
  }

  // ----- the round trip -------------------------------------------------------------------------------

  lemma {:induction false} SplitPlain(a: string, b: string)
    requires AllDigits(a)
    ensures SplitAtPoint(a + "." + b) == (a, Some(b))
    ensures SplitAtPoint(a) == (a, None)
  {
    if a == [] {
      assert a + "." + b == "." + b;
      assert ("." + b)[1..] == b;
    } else {
      SplitPlain(a[1..], b);
      assert a == [a[0]] + a[1..] && IsDigit(a[0]);
      assert (a + "." + b)[1..] == a[1..] + "." + b;
    }
  }

  lemma DigitsInConcat(a: seq<Digit>, b: seq<Digit>)
    ensures AllDigits(TextOf(a) + TextOf(b))
    ensures DigitsIn(TextOf(a) + TextOf(b)) == a + b
  {
    TextRoundTrip(a + b);
    assert TextOf(a + b) == TextOf(a) + TextOf(b);
  }

  lemma SignIsRead(negative: bool, body: string)
    requires body != [] && IsDigit(body[0])
    ensures var s := WithSign(negative, body);
            && (s != [] && s[0] == '-' <==> negative)
            && (if negative then s[1..] else s) == body
  {}

  lemma PartsOfText(negative: bool, a: seq<Digit>, b: seq<Digit>, n: nat)
    requires a != [] && ValueOf(a + b) == n
    ensures ParseParts(negative, TextOf(a), TextOf(b)) == Some(Finite(negative, DigitsOf(n), 0 - |b|))
  {
    DigitsInConcat(a, b);
    assert (TextOf(a) + TextOf(b))[0] == TextOf(a)[0];
  }

  /** Parsing sign, whole digits and fraction digits. */
  lemma ParsePointed(negative: bool, a: seq<Digit>, b: seq<Digit>, n: nat, scale: nat)
    requires a != [] && ValueOf(a + b) == n && |b| == scale
    ensures ParseDecimal(WithSign(negative, Pointed(a, b))) == Some(Finite(negative, DigitsOf(n), 0 - scale))
  {
    assert IsDigit(Pointed(a, b)[0]);
    SignIsRead(negative, Pointed(a, b));
    TextRoundTrip(a);
    SplitPlain(TextOf(a), TextOf(b));
    PartsOfText(negative, a, b, n);
  }

  lemma ParseWhole(negative: bool, a: seq<Digit>, n: nat)
    requires a != [] && ValueOf(a) == n
    ensures ParseDecimal(WithSign(negative, TextOf(a))) == Some(Finite(negative, DigitsOf(n), 0))
  {
    assert IsDigit(TextOf(a)[0]);
    SignIsRead(negative, TextOf(a));
    TextRoundTrip(a);
    SplitPlain(TextOf(a), "");
    assert a + [] == a && TextOf([]) == "";
    PartsOfText(negative, a, [], n);
  }

  /** Reading the constructed text gives back the units and the scale. */
  lemma ParseRendered(minorUnits: int, scale: nat)
    ensures ParseDecimal(Rendered(minorUnits, scale))
            == Some(Finite(minorUnits < 0, DigitsOf(Absolute(minorUnits)), 0 - scale))
  {
    ParsePlainText(minorUnits < 0, Absolute(minorUnits), scale);
  }

  lemma ParsePlainText(negative: bool, n: nat, scale: nat)
    ensures ParseDecimal(WithSign(negative, PlainText(n, scale)))
            == Some(Finite(negative, DigitsOf(n), 0 - scale))
  {
    ValueOfDigitsOf(n);
    if scale == 0 {
      ParseWhole(negative, DigitsOf(n), n);
    } else {
      PadValue(DigitsOf(n), scale + 1);
      var padded := PadLeft(DigitsOf(n), scale + 1);
      Halves(padded, scale);
      ParsePointed(negative, padded[..|padded| - scale], padded[|padded| - scale..], n, scale);
    }
  }

  lemma Halves(ds: seq<Digit>, scale: nat)
    requires |ds| > scale
    ensures var k := |ds| - scale; ds[..k] != [] && |ds[k..]| == scale && ds[..k] + ds[k..] == ds
  {}

  /** For a scale of at most four, `str` writes exactly the text the amount was built from. */
  lemma RenderIsRendered(minorUnits: int, scale: nat)
    requires scale <= 4
    ensures Render(Finite(minorUnits < 0, DigitsOf(Absolute(minorUnits)), 0 - scale))
            == Rendered(minorUnits, scale)
  {
    RenderDigits(minorUnits < 0, Absolute(minorUnits), scale);
  }

  lemma RenderDigits(negative: bool, n: nat, scale: nat)
    requires scale <= 4
    ensures Render(Finite(negative, DigitsOf(n), 0 - scale)) == WithSign(negative, PlainText(n, scale))
  {
    RenderPlain(negative, DigitsOf(n), scale);
  }

  lemma RenderPlain(negative: bool, ds: seq<Digit>, scale: nat)
    requires ds != [] && scale < |ds| + 6
    ensures Render(Finite(negative, ds, 0 - scale)) == WithSign(negative, PlainDigits(ds, scale))
  {
    PlainNotation(negative, ds, scale);
    if scale >= |ds| {
      TinyBody(ds, scale);
    } else {
      SplitBody(ds, scale);
    }
  }

  /** What `str` writes after the sign when the exponent is `-scale` and it stays in plain notation. */
  function PlainBody(ds: seq<Digit>, scale: nat): string {
    if scale >= |ds| then "0." + TextOf(Zeros(scale - |ds|)) + TextOf(ds)
    else if scale == 0 then TextOf(ds) + TextOf(Zeros(0))
    else TextOf(ds)[..|ds| - scale] + "." + TextOf(ds)[|ds| - scale..]
  }

  /** Where the point is inside the plain notation's range. */
  lemma PlainNotation(negative: bool, ds: seq<Digit>, scale: nat)
    requires ds != [] && scale < |ds| + 6
    ensures Render(Finite(negative, ds, 0 - scale)) == WithSign(negative, PlainBody(ds, scale))
  {}

  lemma SplitBody(ds: seq<Digit>, scale: nat)
    requires scale < |ds|
    ensures PlainBody(ds, scale) == PlainDigits(ds, scale)
  {
    if scale == 0 {
      assert TextOf(ds) + TextOf(Zeros(0)) == TextOf(ds);
    } else {
      var k := |ds| - scale;
      assert TextOf(ds[..k]) == TextOf(ds)[..k];
      assert TextOf(ds[k..]) == TextOf(ds)[k..];
    }
  }

  lemma TinyBody(ds: seq<Digit>, scale: nat)
    requires 0 < |ds| <= scale
    ensures PlainBody(ds, scale) == PlainDigits(ds, scale)
  {
    var padded, zeros := PadLeft(ds, scale + 1), Zeros(scale - |ds|);
    OnePad(ds, scale);
    ZeroPoint(zeros + ds);
    TextAppends(zeros, ds);
    Glue("0.", TextOf(zeros), TextOf(ds));
  }

  lemma OnePad(ds: seq<Digit>, scale: nat)
    requires 0 < |ds| <= scale
    ensures var padded := PadLeft(ds, scale + 1);
            |padded| == scale + 1 && padded[..1] == [0] && padded[1..] == Zeros(scale - |ds|) + ds
  {
    assert PadLeft(ds, scale + 1) == [0] + (Zeros(scale - |ds|) + ds);
  }

  lemma ZeroPoint(rest: seq<Digit>)
    ensures Pointed([0], rest) == "0." + TextOf(rest)
  {
    assert TextOf([0]) == "0" by { assert CharOf(0) == '0'; }
    assert "0" + "." == "0.";
  }

  lemma TextAppends(a: seq<Digit>, b: seq<Digit>)
    ensures TextOf(a + b) == TextOf(a) + TextOf(b)
  {}

  lemma Glue(a: string, b: string, c: string)
    ensures (a + b) + c == a + (b + c)
  {}

  lemma NegativeScale(n: int, scale: nat)
    ensures Times(n, Scale(0 - scale)) == n as real / Pow10(scale) as real
  {
    if scale == 0 {
      assert Scale(0) == 1.0 by { assert Pow10(0) == 1; }
    } else {
      TimesReciprocal(n as real, Pow10(scale) as real);
    }
  }

  lemma ValueOfUnits(minorUnits: int, scale: nat)
    ensures Value(Finite(minorUnits < 0, DigitsOf(Absolute(minorUnits)), 0 - scale))
            == minorUnits as real / Pow10(scale) as real
  {
    ValueOfDigitsOf(Absolute(minorUnits));
    NegativeScale(minorUnits, scale);
  }

  /** What `money` returns: an error beyond four places, otherwise exactly `units / 10^scale` with the
      currency's scale, unless that is out of range. */
  lemma MakeIsExact(minorUnits: int, scale: nat)
    ensures scale > 4 <==> Make(minorUnits, scale) == TooPrecise
    ensures scale <= 4 ==>
              (Make(minorUnits, scale).Ok? <==>
               Magnitude(minorUnits as real / Pow10(scale) as real) < 10000000000000000.0)
    ensures Make(minorUnits, scale).Ok? ==>
              var d := Make(minorUnits, scale).value;
              && d.Finite? && Signed(d) == minorUnits && d.exponent == 0 - scale
              && Value(d) == minorUnits as real / Pow10(scale) as real
  {
    ParseRendered(minorUnits, scale);
    ValueOfDigitsOf(Absolute(minorUnits));
    if scale <= 4 {
      ValueOfUnits(minorUnits, scale);
    }
  }

  /** The round trip: a constructed amount passes the scale test, renders to the text it was built from,
      and reading that text recovers the same amount, hence the original units and scale. */
  lemma MinorUnitsRoundTrip(minorUnits: int, scale: nat)
    requires Make(minorUnits, scale).Ok?
    ensures var d := Make(minorUnits, scale).value;
            && d.Finite? && d.digits != []
            && WithinMoneyScale(d)
            && Render(d) == Rendered(minorUnits, scale)
            && ParseDecimal(Render(d)) == Some(d)
            && Signed(d) == minorUnits && -d.exponent == scale
  {
    MakeIsExact(minorUnits, scale);
    ParseRendered(minorUnits, scale);
    RenderIsRendered(minorUnits, scale);
  }

  /** Two constructed amounts render alike only if they are the same units at the same scale. */
  lemma RenderInjective(m: int, scale: nat, n: int, other: nat)
    requires Make(m, scale).Ok? && Make(n, other).Ok?
    requires Make(m, scale).value.digits != [] && Make(n, other).value.digits != []
    requires Render(Make(m, scale).value) == Render(Make(n, other).value)
    ensures m == n && scale == other
  {
    MinorUnitsRoundTrip(m, scale);
    MinorUnitsRoundTrip(n, other);
  }
}
