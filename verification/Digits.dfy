/** Decimal digit strings and the numbers they denote. */
module Digits {

  type Digit = d: int | 0 <= d <= 9

  function Pow10(n: nat): (p: nat)
    ensures p >= 1
  {
    if n == 0 then 1 else 10 * Pow10(n - 1)
  }

  /** The number a digit string denotes, most significant digit first; leading zeros do not matter. */
  function ValueOf(ds: seq<Digit>): nat {
    if ds == [] then 0 else 10 * ValueOf(ds[..|ds| - 1]) + ds[|ds| - 1]
  }

  /** `str(n)` as digits: no leading zero except for zero itself. */
  function DigitsOf(n: nat): (ds: seq<Digit>)
    ensures ds != [] && (|ds| > 1 ==> ds[0] != 0)
  {
    if n < 10 then [n] else DigitsOf(n / 10) + [n % 10]
  }

  lemma {:induction false} ValueOfDigitsOf(n: nat)
    ensures ValueOf(DigitsOf(n)) == n
  {
    if n >= 10 {
      ValueOfDigitsOf(n / 10);
      assert DigitsOf(n)[..|DigitsOf(n)| - 1] == DigitsOf(n / 10);
    } else {
      assert [n][..0] == [];
    }
  }

  /** Appending digits shifts the number. */
  lemma {:induction false} ValueOfConcat(a: seq<Digit>, b: seq<Digit>)
    ensures ValueOf(a + b) == ValueOf(a) * Pow10(|b|) + ValueOf(b)
  {
    if b == [] {
      assert a + b == a;
    } else {
      var n := |b| - 1;
      ValueOfConcat(a, b[..n]);
      assert (a + b)[..|a + b| - 1] == a + b[..n];
      ShiftArithmetic(ValueOf(a), Pow10(n), ValueOf(b[..n]), b[n]);
    }
  }

  lemma ShiftArithmetic(x: int, p: int, y: int, d: int)
    ensures 10 * (x * p + y) + d == x * (10 * p) + (10 * y + d)
  {}

  lemma {:induction false} ValueOfBound(ds: seq<Digit>)
    ensures ValueOf(ds) < Pow10(|ds|)
  {
    if ds != [] {
      ValueOfBound(ds[..|ds| - 1]);
    }
  }

  function Zeros(n: nat): (z: seq<Digit>)
    ensures |z| == n
  {
    seq(n, _ => 0)
  }

  lemma {:induction false} ZerosAreZero(ds: seq<Digit>)
    ensures ValueOf(ds) == 0 <==> forall i :: 0 <= i < |ds| ==> ds[i] == 0
  {
    if ds != [] {
      ZerosAreZero(ds[..|ds| - 1]);
    }
  }

  lemma LeadingZeros(n: nat, ds: seq<Digit>)
    ensures ValueOf(Zeros(n) + ds) == ValueOf(ds)
  {
    ValueOfConcat(Zeros(n), ds);
    ZerosAreZero(Zeros(n));
  }

  lemma {:induction false} Pow10Sum(a: nat, b: nat)
    ensures Pow10(a + b) == Pow10(a) * Pow10(b)
  {
    if a > 0 {
      Pow10Sum(a - 1, b);
    }
  }

  // ----- characters -------------------------------------------------------------------------

  predicate IsDigit(c: char) {
    '0' <= c <= '9'
  }

  function CharOf(d: Digit): (c: char)
    ensures IsDigit(c)
  {
    d as char + '0'
  }

  function DigitOf(c: char): Digit
    requires IsDigit(c)
  {
    (c - '0') as int
  }

  function TextOf(ds: seq<Digit>): (s: string)
    ensures |s| == |ds| && forall i :: 0 <= i < |s| ==> s[i] == CharOf(ds[i])
  {
    seq(|ds|, i requires 0 <= i < |ds| => CharOf(ds[i]))
  }

  predicate AllDigits(s: string) {
    forall i :: 0 <= i < |s| ==> IsDigit(s[i])
  }

  function DigitsIn(s: string): (ds: seq<Digit>)
    requires AllDigits(s)
    ensures |ds| == |s|
  {
    seq(|s|, i requires 0 <= i < |s| => DigitOf(s[i]))
  }

  lemma TextRoundTrip(ds: seq<Digit>)
    ensures AllDigits(TextOf(ds)) && DigitsIn(TextOf(ds)) == ds
  {
    assert forall i :: 0 <= i < |ds| ==> DigitOf(CharOf(ds[i])) == ds[i];
  }

  /** `str(n)` for an integer. */
  function IntText(n: int): (s: string)
    ensures s != []
  {
    if n < 0 then "-" + TextOf(DigitsOf(-n)) else TextOf(DigitsOf(n))
  }

  /** `int(s)` for the spellings `str` produces. */
  function ParseInt(s: string): int
    requires s != [] && AllDigits(if s[0] == '-' then s[1..] else s)
  {
    if s[0] == '-' then 0 - ValueOf(DigitsIn(s[1..])) else ValueOf(DigitsIn(s))
  }

  lemma IntRoundTrip(n: int)
    ensures var s := IntText(n); AllDigits(if s[0] == '-' then s[1..] else s) && ParseInt(s) == n
  {
    var m := if n < 0 then -n else n;
    TextRoundTrip(DigitsOf(m));
    ValueOfDigitsOf(m);
    if n < 0 {
      assert IntText(n)[1..] == TextOf(DigitsOf(m));
    } else {
      assert IsDigit(IntText(n)[0]);
    }
  }
}
