/** Reading an amount back, and hashing it: one economic value, one representation. */
module Quantisation {
  import opened Wrappers
  import opened Digits
  import opened Decimals

  // ----- quantize(Decimal("0.0001")) --------------------------------------------------------------

  /** Division rounding half to even, the default context's mode. */
  function HalfEven(n: nat, p: nat): nat
    requires p > 0
  {
    var q, r := n / p, n % p;
    if 2 * r > p || (2 * r == p && q % 2 == 1) then q + 1 else q
  }

  /** The magnitude of a finite decimal in ten-thousandths, rounded where it is finer than that. */
  function QuantisedUnits(d: Decimal): nat
    requires d.Finite?
  {
    if d.exponent >= -4 then Unscaled(d) * Pow10(d.exponent + 4)
    else HalfEven(Unscaled(d), Pow10(-d.exponent - 4))
  }

  /** `value.quantize(MONEY_QUANTUM)`; None stands for `InvalidOperation`, raised for infinity and for a
      result of more digits than the context's precision. */
  function Quantize(d: Decimal): Option<Decimal> {
    match d
    case NaN => Some(NaN)
    case Infinite => None
    case Finite(negative, _, _) =>
      var digits := DigitsOf(QuantisedUnits(d));
      if |digits| > CONTEXT_PRECISION then None else Some(Finite(negative, digits, -4))
  }

  // ----- arithmetic -------------------------------------------------------------------------------

  function WithSign(negative: bool, n: nat): int {
    if negative then 0 - n else n
  }

  lemma HalfEvenExact(n: nat, p: nat)
    requires p > 0
    ensures HalfEven(n, p) * p == n <==> n % p == 0
    ensures n % p == 0 ==> HalfEven(n, p) == n / p
  {
    var q, r := n / p, n % p;
    assert n == p * q + r;
    assert (q + 1) * p == q * p + p;
  }

  lemma SignedProduct(negative: bool, n: nat, p: nat)
    ensures WithSign(negative, n) * p == WithSign(negative, n * p)
  {}

  /** Rounding to ten-thousandths changes nothing exactly when the scale test passes. */
  lemma UnitsExactIffWithinScale(d: Decimal)
    requires d.Finite?
    ensures Value(d) * 10000.0 == WithSign(d.negative, QuantisedUnits(d)) as real <==> WithinMoneyScale(d)
  {
    if d.exponent >= -4 {
      CoarseIsIntegral(d);
      SignedProduct(d.negative, Unscaled(d), Pow10(d.exponent + 4));
    } else {
      FineUnits(d, Pow10(-d.exponent - 4), Scale(d.exponent));
    }
  }

  lemma FineUnits(d: Decimal, p: nat, e: real)
    requires d.Finite? && d.exponent < -4 && p == Pow10(-d.exponent - 4) && e == Scale(d.exponent)
    ensures Value(d) * 10000.0 == WithSign(d.negative, QuantisedUnits(d)) as real <==> WithinMoneyScale(d)
  {
    var u := WithSign(d.negative, QuantisedUnits(d));
    FineScale(d.exponent);
    ScaleFactor(Signed(d), e, 1.0 / (p as real));
    QuotientEquals(Signed(d), p, u);
    HalfEvenExact(Unscaled(d), p);
    SignedProduct(d.negative, QuantisedUnits(d), p);
    ScaleTestIsDivisibility(d, -d.exponent - 4);
    SignedModulus(Unscaled(d), p);
  }

  lemma QuotientEquals(n: int, p: int, u: int)
    requires p > 0
    ensures Times(n, 1.0 / (p as real)) == u as real <==> n == u * p
  {
    TimesReciprocal(n as real, p as real);
    var x := n as real / p as real;
    assert x * p as real == n as real;
    if n == u * p {
      assert n as real == u as real * p as real;
      SameQuotient(x, u as real, p as real);
    }
    if x == u as real {
      assert (u * p) as real == u as real * p as real;
    }
  }

  // ----- read-back -----------------------------------------------------------------------------------

  lemma QuantisedValue(d: Decimal)
    requires d.Finite? && Quantize(d).Some?
    ensures Quantize(d).value.Finite?
    ensures Value(Quantize(d).value) * 10000.0 == WithSign(d.negative, QuantisedUnits(d)) as real
  {
    var q := Quantize(d).value;
    CoarseIsIntegral(q);
    ValueOfDigitsOf(QuantisedUnits(d));
    assert Pow10(0) == 1;
  }

  /** Read-back is lossless exactly for the values the column admits. */
  lemma QuantizeLosslessIff(d: Decimal)
    requires d.Finite? && Quantize(d).Some?
    ensures Quantize(d).value.Finite? && Quantize(d).value.exponent == -4
    ensures Value(Quantize(d).value) == Value(d) <==> WithinMoneyScale(d)
  {
    QuantisedValue(d);
    UnitsExactIffWithinScale(d);
  }

  /** Two stored amounts read back as the identical representation exactly when they are the same value,
      zeros of opposite sign excepted. */
  lemma QuantizeCanonicalIff(a: Decimal, b: Decimal)
    requires a.Finite? && b.Finite? && WithinMoneyScale(a) && WithinMoneyScale(b)
    requires Quantize(a).Some? && Quantize(b).Some?
    ensures Quantize(a) == Quantize(b) <==>
            Value(a) == Value(b) && (Value(a) == 0.0 ==> a.negative == b.negative)
  {
    UnitsExactIffWithinScale(a);
    UnitsExactIffWithinScale(b);
    ValueOfDigitsOf(QuantisedUnits(a));
    ValueOfDigitsOf(QuantisedUnits(b));
  }

  /** What a numeric column returns: an amount it admitted, and PostgreSQL's numeric has one zero only. */
  predicate FromColumn(d: Decimal) {
    d.Finite? && WithinMoneyScale(d) && WithinMagnitude(d) && (d.negative ==> Unscaled(d) != 0)
  }

  /** For what the column returns the read-back is canonical without exception: it always succeeds, loses
      nothing, and equal amounts become one identical representation. */
  lemma ReadBackIsCanonical(a: Decimal, b: Decimal)
    requires FromColumn(a) && FromColumn(b)
    ensures Quantize(a).Some? && Quantize(a).value.Finite? && Value(Quantize(a).value) == Value(a)
    ensures Quantize(a) == Quantize(b) <==> Value(a) == Value(b)
  {
    StoredAmountsReadBack(a);
    StoredAmountsReadBack(b);
    QuantizeLosslessIff(a);
    QuantizeCanonicalIff(a, b);
    ZeroHasNoSign(a);
    ZeroHasNoSign(b);
  }

  lemma ZeroHasNoSign(d: Decimal)
    requires d.Finite? && (d.negative ==> Unscaled(d) != 0)
    ensures Value(d) == 0.0 ==> !d.negative
  {
    if d.negative {
      NonZeroProduct(Signed(d), Scale(d.exponent));
    }
  }

  lemma NonZeroProduct(n: int, scale: real)
    requires n != 0 && scale > 0.0
    ensures Times(n, scale) != 0.0
  {}

  /** The rounding: to a nearest multiple, and to the even one of two that are equally near. */
  lemma HalfEvenIsNearest(n: nat, p: nat)
    requires p > 0
    ensures var m := HalfEven(n, p) * p;
            && 0 - p <= 2 * (n - m) <= p
            && (2 * (n - m) == p || 2 * (n - m) == 0 - p ==> HalfEven(n, p) % 2 == 0)
  {
    var q := n / p;
    assert n == p * q + n % p;
    assert (q + 1) * p == p * q + p && q * p == p * q;
    if 2 * (n % p) == p && q % 2 == 1 {
      assert (q + 1) % 2 == 0;
    }
  }

  /** Quantising rounds the magnitude to a nearest number of ten-thousandths, ties to even, and keeps the sign;
      it fails exactly when that number has more than 28 digits. */
  lemma QuantizeRounds(d: Decimal)
    requires d.Finite?
    ensures Quantize(d).None? <==> QuantisedUnits(d) >= Pow10(28)
    ensures Quantize(d).Some? ==> Quantize(d) == Some(Finite(d.negative, DigitsOf(QuantisedUnits(d)), -4))
    ensures d.exponent >= -4 ==> QuantisedUnits(d) == Unscaled(d) * Pow10(d.exponent + 4)
    ensures d.exponent < -4 ==>
              var p := Pow10(-d.exponent - 4);
              var rest := Unscaled(d) - QuantisedUnits(d) * p;
              0 - p <= 2 * rest <= p && (2 * rest == p || 2 * rest == 0 - p ==> QuantisedUnits(d) % 2 == 0)
  {
    if QuantisedUnits(d) < Pow10(28) {
      DigitCount(QuantisedUnits(d), 28);
    } else {
      FewDigits(QuantisedUnits(d), 28);
    }
    if d.exponent < -4 {
      HalfEvenIsNearest(Unscaled(d), Pow10(-d.exponent - 4));
    }
  }

  lemma FewDigits(n: nat, k: nat)
    ensures |DigitsOf(n)| <= k ==> n < Pow10(k)
  {
    ValueOfDigitsOf(n);
    ValueOfBound(DigitsOf(n));
    if |DigitsOf(n)| <= k {
      Pow10Monotone(|DigitsOf(n)|, k);
    }
  }

  /** `quantize` itself would keep the sign of a negative zero; a numeric column never returns one. */
  lemma NegativeZeroKeepsItsSign()
    ensures var plus, minus := Finite(false, [0], 0), Finite(true, [0], 0);
            && Value(plus) == Value(minus) && WithinMoneyScale(plus) && WithinMoneyScale(minus)
            && Quantize(plus).Some? && Quantize(minus).Some? && Quantize(plus) != Quantize(minus)
  {
    var plus, minus := Finite(false, [0], 0), Finite(true, [0], 0);
    assert [0][..0] == [];
    assert Unscaled(plus) == 0 && Unscaled(minus) == 0;
    assert QuantisedUnits(plus) == 0 && QuantisedUnits(minus) == 0;
  }

  /** A number below ten to the `k` has at most `k` digits. */
  lemma {:induction false} DigitCount(n: nat, k: nat)
    requires k >= 1 && n < Pow10(k)
    ensures |DigitsOf(n)| <= k
  {
    if n >= 10 {
      assert Pow10(k) == 10 * Pow10(k - 1);
      DigitCount(n / 10, k - 1);
    }
  }

  predicate WithinMagnitude(d: Decimal)
    requires d.Finite?
  {
    Magnitude(Value(d)) < 10000000000000000.0
  }

  /** Every amount the column admits can be read back. */
  lemma StoredAmountsReadBack(d: Decimal)
    requires d.Finite? && WithinMoneyScale(d) && WithinMagnitude(d)
    ensures Quantize(d).Some?
  {
    UnitsExactIffWithinScale(d);
    var units := QuantisedUnits(d);
    assert units < 100000000000000000000;
    TenToTwenty();
    DigitCount(units, 20);
  }

  lemma TenToTwenty()
    ensures Pow10(20) == 100000000000000000000
  {
    assert Pow10(2) == 100 && Pow10(4) == 10000 by { Pow10Sum(2, 2); }
    Pow10Sum(4, 4);
    Pow10Sum(8, 8);
    Pow10Sum(16, 4);
  }

  // ----- the text an amount is hashed under ------------------------------------------------------------

  /** `f"{n:04d}"` and `rjust`: left-padded with zeros to at least `width` digits. */
  function PadLeft(ds: seq<Digit>, width: nat): seq<Digit> {
    if |ds| >= width then ds else Zeros(width - |ds|) + ds
  }

  /** `unscaled * 10**shift if shift >= 0 else unscaled // 10**-shift`. */
  function Shifted(unscaled: nat, shift: int): nat {
    if shift >= 0 then unscaled * Pow10(shift) else FloorDivide(unscaled, Pow10(-shift))
  }

  function FloorDivide(n: nat, p: nat): nat
    requires p > 0
  {
    n / p
  }

  /** Whole units, a point and four digits, after the sign. */
  function CanonicalText(negative: bool, units: nat): string {
    (if negative then "-" else "") + TextOf(DigitsOf(units / 10000)) + "."
    + TextOf(PadLeft(DigitsOf(units % 10000), 4))
  }

  /** `canonical_amount`; None stands for `AmountNotStorableError`. */
  function CanonicalAmount(d: Decimal): Option<string> {
    if !d.Finite? || !WithinMoneyScale(d) || !WithinMagnitude(d) then None
    else if Unscaled(d) == 0 then Some("0.0000")
    else Some(CanonicalText(d.negative, Shifted(Unscaled(d), d.exponent + 4)))
  }

  lemma PadValue(ds: seq<Digit>, width: nat)
    ensures ValueOf(PadLeft(ds, width)) == ValueOf(ds)
    ensures |PadLeft(ds, width)| == if |ds| >= width then |ds| else width
  {
    if |ds| < width {
      LeadingZeros(width - |ds|, ds);
    }
  }

  lemma FractionText(units: nat)
    ensures |TextOf(PadLeft(DigitsOf(units % 10000), 4))| == 4
  {
    assert Pow10(2) == 100 && Pow10(4) == 10000 by { Pow10Sum(2, 2); }
    DigitCount(units % 10000, 4);
    PadValue(DigitsOf(units % 10000), 4);
  }

  /** Sign, whole and fraction are recoverable from a canonical text. */
  lemma CanonicalTextInjective(m: bool, x: nat, n: bool, y: nat)
    requires CanonicalText(m, x) == CanonicalText(n, y)
    ensures m == n && x == y
  {
    var s, t := CanonicalText(m, x), CanonicalText(n, y);
    var fx, fy := TextOf(PadLeft(DigitsOf(x % 10000), 4)), TextOf(PadLeft(DigitsOf(y % 10000), 4));
    FractionText(x);
    FractionText(y);
    var wx, wy := TextOf(DigitsOf(x / 10000)), TextOf(DigitsOf(y / 10000));
    assert s[|s| - 4..] == fx && t[|t| - 4..] == fy;
    assert s[..|s| - 5] == (if m then "-" else "") + wx;
    assert t[..|t| - 5] == (if n then "-" else "") + wy;
    SignedTextInjective(m, DigitsOf(x / 10000), n, DigitsOf(y / 10000));
    SameText(PadLeft(DigitsOf(x % 10000), 4), PadLeft(DigitsOf(y % 10000), 4));
    PadValue(DigitsOf(x % 10000), 4);
    PadValue(DigitsOf(y % 10000), 4);
    ValueOfDigitsOf(x / 10000);
    ValueOfDigitsOf(y / 10000);
    ValueOfDigitsOf(x % 10000);
    ValueOfDigitsOf(y % 10000);
  }

  lemma SameText(a: seq<Digit>, b: seq<Digit>)
    requires TextOf(a) == TextOf(b)
    ensures a == b
  {
    TextRoundTrip(a);
    TextRoundTrip(b);
  }

  lemma SignedTextInjective(m: bool, a: seq<Digit>, n: bool, b: seq<Digit>)
    requires a != [] && b != []
    requires (if m then "-" else "") + TextOf(a) == (if n then "-" else "") + TextOf(b)
    ensures m == n && a == b
  {
    var s, t := (if m then "-" else "") + TextOf(a), (if n then "-" else "") + TextOf(b);
    assert (s[0] == '-') == m && (t[0] == '-') == n;
    if m {
      assert s[1..] == TextOf(a) && t[1..] == TextOf(b);
    } else {
      assert s == TextOf(a) && t == TextOf(b);
    }
    SameText(a, b);
  }

  lemma CanonicalAmountText(d: Decimal)
    requires CanonicalAmount(d).Some?
    ensures CanonicalAmount(d).value
            == CanonicalText(d.negative && QuantisedUnits(d) != 0, QuantisedUnits(d))
    ensures Value(d) * 10000.0 == WithSign(d.negative, QuantisedUnits(d)) as real
  {
    UnitsExactIffWithinScale(d);
    if d.exponent < -4 {
      HalfEvenExact(Unscaled(d), Pow10(-d.exponent - 4));
      ScaleTestIsDivisibility(d, -d.exponent - 4);
      SignedModulus(Unscaled(d), Pow10(-d.exponent - 4));
    }
    ZeroUnits(d);
    if QuantisedUnits(d) == 0 {
      assert CanonicalText(false, 0) == "0.0000" by {
        assert CharOf(0) == '0';
        assert TextOf(DigitsOf(0)) == "0";
        assert TextOf(PadLeft(DigitsOf(0), 4)) == "0000";
      }
    }
  }

  lemma ZeroUnits(d: Decimal)
    requires d.Finite? && WithinMoneyScale(d)
    ensures QuantisedUnits(d) == 0 <==> Unscaled(d) == 0
  {
    if d.exponent >= -4 {
      ProductZero(Unscaled(d), Pow10(d.exponent + 4));
    } else {
      var p := Pow10(-d.exponent - 4);
      HalfEvenExact(Unscaled(d), p);
      ScaleTestIsDivisibility(d, -d.exponent - 4);
      SignedModulus(Unscaled(d), p);
      assert HalfEven(Unscaled(d), p) * p == Unscaled(d);
      ProductZero(HalfEven(Unscaled(d), p), p);
    }
  }

  lemma ProductZero(n: nat, p: nat)
    requires p >= 1
    ensures n * p == 0 <==> n == 0
  {
    if n >= 1 {
      assert n * p >= p;
    }
  }

  /** One economic value, one text, and one text, one economic value. */
  lemma CanonicalAmountIff(a: Decimal, b: Decimal)
    requires CanonicalAmount(a).Some? && CanonicalAmount(b).Some?
    ensures CanonicalAmount(a) == CanonicalAmount(b) <==> Value(a) == Value(b)
  {
    CanonicalAmountText(a);
    CanonicalAmountText(b);
    if CanonicalAmount(a) == CanonicalAmount(b) {
      CanonicalTextInjective(a.negative && QuantisedUnits(a) != 0, QuantisedUnits(a),
                             b.negative && QuantisedUnits(b) != 0, QuantisedUnits(b));
    }
  }
}
