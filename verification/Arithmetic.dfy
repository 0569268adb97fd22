/** Facts about products and quotients. */
module Arithmetic {

  lemma Cancel(a: nat, b: nat, n: nat)
    requires a * n < b * n
    ensures a < b
  {
  }

  lemma MulMono(a: nat, b: int, c: int)
    requires b <= c
    ensures a * b <= a * c
  {
  }

  /** A quotient is the greatest number of times that `d` fits. */
  lemma DivIs(a: nat, d: nat)
    requires d > 0
    ensures (a / d) * d <= a < (a / d + 1) * d
  {
    assert a == (a / d) * d + a % d;
  }

  lemma FactorBelow(q: nat, d: nat, a: nat)
    requires d > 0 && q * d <= a
    ensures q <= a
  {
    MulMono(q, 1, d);
  }

  lemma QuotientBelow(a: nat, d: nat, q: nat)
    requires d > 0 && q == a / d
    ensures q <= a
  {
    assert q * d <= a by { DivIs(a, d); }
    FactorBelow(q, d, a);
  }

  lemma DivMono(a: nat, b: nat, d: nat)
    requires a <= b && d > 0
    ensures a / d <= b / d
  {
    assert (a / d) * d <= a <= b < (b / d) * d + d == (b / d + 1) * d;
    Cancel(a / d, b / d + 1, d);
  }
}
