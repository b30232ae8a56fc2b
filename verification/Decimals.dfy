/** Exact decimal amounts: the digit-level scale test, the read-back quantisation and the canonical text
    an amount is hashed under. */
module Decimals {
  import opened Digits
  import opened Arithmetic

  /** `Decimal.as_tuple()`: sign, digits and exponent, or one of the special values. */
  datatype Decimal = Finite(negative: bool, digits: seq<Digit>, exponent: int) | Infinite | NaN

  const MAX_SCALE := 4
  const CONTEXT_PRECISION := 28

  // ----- what a decimal denotes -----------------------------------------------------------------

  function Unscaled(d: Decimal): nat
    requires d.Finite?
  {
    ValueOf(d.digits)
  }

  function Signed(d: Decimal): int
    requires d.Finite?
  {
    if d.negative then 0 - Unscaled(d) else Unscaled(d)
  }

  /** Ten to any integer power. */
  function Scale(e: int): (r: real)
    ensures r > 0.0
  {
    if e >= 0 then Pow10(e) as real else 1.0 / (Pow10(-e) as real)
  }

  function Times(n: int, scale: real): real {
    n as real * scale
  }

  function Value(d: Decimal): real
    requires d.Finite?
  {
    Times(Signed(d), Scale(d.exponent))
  }

  predicate IsIntegral(r: real) {
    r.Floor as real == r
  }

  function Magnitude(r: real): real {
    if r < 0.0 then -r else r
  }

  // ----- the scale test, both sides ---------------------------------------------------------------

  /** Python's `digits[-n:]` for a positive `n`: everything when `n` exceeds the length. */
  function LastDigits(ds: seq<Digit>, n: nat): seq<Digit> {
    if n >= |ds| then ds else ds[|ds| - n..]
  }

  /** `within_money_scale`: read off the digits, never computed. */
  predicate WithinMoneyScale(d: Decimal) {
    match d
    case Finite(_, digits, exponent) =>
      var excess := -exponent - MAX_SCALE;
      excess <= 0 || forall i :: 0 <= i < |LastDigits(digits, excess)| ==> LastDigits(digits, excess)[i] == 0
    case _ => false
  }

  /** SQL's `trunc(v, 4)`. */
  function Trunc4(v: real): real {
    if v >= 0.0 then (v * 10000.0).Floor as real / 10000.0
    else -((-v * 10000.0).Floor as real / 10000.0)
  }

  lemma Pow10Positive(n: nat)
    ensures Pow10(n) as real > 0.0
  {}

  /** Multiplying by ten thousand moves the exponent by four. */
  lemma ScaleShift(e: int)
    ensures Scale(e) * 10000.0 == Scale(e + 4)
  {
    if e >= 0 {
      Pow10Sum(4, e);
      assert Pow10(4) == 10000 by { assert Pow10(2) == 100; }
    } else if e >= -4 {
      assert Pow10(1) == 10 && Pow10(2) == 100;
      assert Pow10(3) == 1000 && Pow10(4) == 10000;
    } else {
      assert Pow10(4) == 10000 by { assert Pow10(2) == 100; }
      Pow10Sum(4, -e - 4);
      Pow10Positive(-e - 4);
      Reciprocal(Pow10(-e - 4) as real);
    }
  }

  lemma Reciprocal(p: real)
    requires p > 0.0
    ensures 1.0 / (10000.0 * p) * 10000.0 == 1.0 / p
  {}

  /** The last `m` digits are zero exactly when ten to the `m` divides the number. */
  lemma LastDigitsZeroIffDivisible(ds: seq<Digit>, m: nat)
    ensures (forall i :: 0 <= i < |LastDigits(ds, m)| ==> LastDigits(ds, m)[i] == 0)
            <==> ValueOf(ds) % Pow10(m) == 0
  {
    var low := LastDigits(ds, m);
    ZerosAreZero(low);
    ValueOfBound(low);
    if m >= |ds| {
      Pow10Monotone(|ds|, m);
      SmallModulus(ValueOf(ds), Pow10(m));
    } else {
      var high := ds[..|ds| - m];
      assert ds == high + low;
      ValueOfConcat(high, low);
      ModulusOfSum(ValueOf(high), Pow10(m), ValueOf(low));
    }
  }

  lemma {:induction false} Pow10Monotone(a: nat, b: nat)
    requires a <= b
    ensures Pow10(a) <= Pow10(b)
  {
    if a < b {
      Pow10Monotone(a, b - 1);
    }
  }

  lemma SmallModulus(x: nat, p: nat)
    requires x < p
    ensures x % p == x && x / p == 0
  {}

  lemma ModulusOfSum(h: nat, p: nat, l: nat)
    requires l < p
    ensures (h * p + l) % p == l
  {
    Quotient(h * p + l, p, h, l);
  }

  /** Dividing an integer by an integer leaves an integer exactly when it divides it. */
  lemma IntegralIffDivisible(n: int, p: int)
    requires p > 0
    ensures IsIntegral(n as real / p as real) <==> n % p == 0
  {
    var x := n as real / p as real;
    assert x * p as real == n as real;
    var q, r := n / p, n % p;
    assert n == q * p + r by { assert n == p * q + r; }
    if r == 0 {
      assert x == q as real by { SameQuotient(x, q as real, p as real); }
    }
    if x.Floor as real == x {
      var k := x.Floor;
      assert (k * p) as real == k as real * p as real == n as real;
      Quotient(n, p, k, 0);
    }
  }

  lemma SameQuotient(x: real, y: real, p: real)
    requires p > 0.0 && x * p == y * p
    ensures x == y
  {}

  lemma SignedModulus(n: int, p: int)
    requires p > 0
    ensures (0 - n) % p == 0 <==> n % p == 0
  {
    if n % p == 0 {
      assert n == p * (n / p);
      Quotient(0 - n, p, 0 - n / p, 0);
    }
    if (0 - n) % p == 0 {
      var q := (0 - n) / p;
      assert 0 - n == p * q;
      Quotient(n, p, 0 - q, 0);
    }
  }

  lemma CoarseScale(e: int)
    requires e >= -4
    ensures Scale(e) * 10000.0 == Pow10(e + 4) as real
  {
    ScaleShift(e);
  }

  lemma FineScale(e: int)
    requires e < -4
    ensures Scale(e) * 10000.0 == 1.0 / (Pow10(-e - 4) as real)
  {
    ScaleShift(e);
  }

  lemma ScaleFactor(n: int, e: real, f: real)
    requires e * 10000.0 == f
    ensures Times(n, e) * 10000.0 == Times(n, f)
  {}

  lemma TimesInteger(n: int, p: int)
    ensures Times(n, p as real) == (n * p) as real && IsIntegral(Times(n, p as real))
  {
    assert n as real * p as real == (n * p) as real;
  }

  lemma TimesFraction(n: int, p: int)
    requires p > 0
    ensures IsIntegral(Times(n, 1.0 / (p as real))) <==> n % p == 0
  {
    IntegralIffDivisible(n, p);
    TimesIsQuotient(n, p);
  }

  lemma TimesIsQuotient(n: int, p: int)
    requires p > 0
    ensures Times(n, 1.0 / (p as real)) == n as real / p as real
  {
    TimesReciprocal(n as real, p as real);
  }

  lemma CoarseIsIntegral(d: Decimal)
    requires d.Finite? && d.exponent >= -4
    ensures Value(d) * 10000.0 == (Signed(d) * Pow10(d.exponent + 4)) as real
    ensures IsIntegral(Value(d) * 10000.0)
  {
    CoarseScale(d.exponent);
    ScaleFactor(Signed(d), Scale(d.exponent), Pow10(d.exponent + 4) as real);
    TimesInteger(Signed(d), Pow10(d.exponent + 4));
  }

  lemma FineIsIntegralIffDivisible(d: Decimal)
    requires d.Finite? && d.exponent < -4
    ensures IsIntegral(Value(d) * 10000.0) <==> Signed(d) % Pow10(-d.exponent - 4) == 0
  {
    FineScale(d.exponent);
    ScaleFactor(Signed(d), Scale(d.exponent), 1.0 / (Pow10(-d.exponent - 4) as real));
    TimesFraction(Signed(d), Pow10(-d.exponent - 4));
  }

  /** The digit test holds for a finite decimal exactly when ten thousand times its value is an integer,
      including when the excess is longer than the digits. */
  lemma ScaleTestIsIntegrality(d: Decimal)
    requires d.Finite?
    ensures WithinMoneyScale(d) <==> IsIntegral(Value(d) * 10000.0)
  {
    if d.exponent >= -4 {
      CoarseIsIntegral(d);
    } else {
      FineIsIntegralIffDivisible(d);
      ScaleTestIsDivisibility(d, -d.exponent - 4);
    }
  }

  lemma ScaleTestIsDivisibility(d: Decimal, excess: nat)
    requires d.Finite? && excess == -d.exponent - 4 && excess > 0
    ensures WithinMoneyScale(d) <==> Signed(d) % Pow10(excess) == 0
  {
    LastDigitsZeroIffDivisible(d.digits, excess);
    SignedModulus(Unscaled(d), Pow10(excess));
    assert MAX_SCALE == 4;
  }

  lemma TimesReciprocal(x: real, p: real)
    requires p > 0.0
    ensures x * (1.0 / p) == x / p
  {}

  /** It is the column's rule: `trunc(v, 4) = v`. */
  lemma ScaleTestIsTruncation(d: Decimal)
    requires d.Finite?
    ensures WithinMoneyScale(d) <==> Trunc4(Value(d)) == Value(d)
  {
    ScaleTestIsIntegrality(d);
    TruncIdentity(Value(d));
  }

  lemma TruncIdentity(v: real)
    ensures Trunc4(v) == v <==> IsIntegral(v * 10000.0)
  {
    var w := v * 10000.0;
    if v < 0.0 {
      NegateIntegral(w);
    }
  }

  lemma NegateIntegral(w: real)
    ensures IsIntegral(-w) <==> IsIntegral(w)
  {
    if IsIntegral(w) {
      assert (-w) == (0 - w.Floor) as real;
    }
    if IsIntegral(-w) {
      assert w == (0 - (-w).Floor) as real;
    }
  }

  /** So the test depends on the value, never on how it is spelled. */
  lemma ScaleTestIgnoresSpelling(a: Decimal, b: Decimal)
    requires a.Finite? && b.Finite? && Value(a) == Value(b)
    ensures WithinMoneyScale(a) == WithinMoneyScale(b)
  {
    ScaleTestIsIntegrality(a);
    ScaleTestIsIntegrality(b);
  }
}
