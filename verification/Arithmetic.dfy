/** Facts about products, quotients and remainders by a variable divisor. */
module Arithmetic {

  lemma MulMonotone(x: int, y: int, d: nat)
    ensures x <= y ==> x * d <= y * d
  {
  }

  lemma DivModUnique(k: nat, d: nat, q: nat, r: nat)
    requires d > 0 && r < d && k == q * d + r
    ensures k / d == q && k % d == r
  {
    assert k == k / d * d + k % d;
    MulMonotone(k / d + 1, q, d);
    MulMonotone(q + 1, k / d, d);
  }
}
