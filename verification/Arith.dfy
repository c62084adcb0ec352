/** Multiples and remainders. */
module Arith {
  lemma AtLeastOnce(z: int, d: int)
    requires z >= 1 && d > 0
    ensures z * d >= d
  {
  }

  lemma NoSmallMultiple(z: int, d: int)
    requires d > 0 && -d < z * d < d
    ensures z == 0
  {
    if z >= 1 { AtLeastOnce(z, d); } else if z <= -1 { AtLeastOnce(-z, d); }
  }

  lemma QuotientIs(x: int, d: int, q: int, r: int)
    requires d > 0 && x == q * d + r && 0 <= r < d
    ensures x / d == q && x % d == r
  {
    assert (q - x / d) * d == x % d - r;
    NoSmallMultiple(q - x / d, d);
  }

  lemma MultipleHasNoRest(q: int, d: int)
    requires d > 0
    ensures (q * d) % d == 0
  {
    QuotientIs(q * d, d, q, 0);
  }

  lemma NoNegativeProduct(a: nat, b: nat)
    ensures a * b >= 0
  {
  }
}
