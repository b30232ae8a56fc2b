/** Facts about products and quotients the proofs keep asking for. */
module Arithmetic {

  lemma MulMonotone(t: int, a: int, b: int)
    requires t >= 0
    ensures a <= b ==> t * a <= t * b && a * t <= b * t
  {}

  lemma OneMore(n: int, k: int)
    ensures (n + 1) * k == n * k + k
  {}

  lemma Quotient(x: int, p: int, q: int, r: int)
    requires p > 0 && x == q * p + r && 0 <= r < p
    ensures x / p == q && x % p == r
  {
    var d := x / p - q;
    assert x == p * (x / p) + x % p;
    assert d * p == r - x % p by { assert (x / p - q) * p == (x / p) * p - q * p; }
    MulMonotone(p, 1, d);
    MulMonotone(p, d, -1);
  }
}
