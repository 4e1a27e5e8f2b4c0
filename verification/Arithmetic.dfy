/** The few facts about products and quotients that the proofs share. */
module Arithmetic {

  lemma MulMonotone(a: nat, b: nat, c: nat)
    requires a <= b
    ensures a * c <= b * c
  {
    assert b * c == a * c + (b - a) * c;
  }

  lemma Quotient(i: nat, d: nat, q: nat)
    requires d >= 1
    ensures i / d == q <==> q * d <= i < q * d + d
  {
    var r := i / d;
    assert i == r * d + i % d;
    if r < q {
      MulMonotone(r + 1, q, d);
      assert (r + 1) * d == r * d + d;
    } else if q < r {
      MulMonotone(q + 1, r, d);
      assert (q + 1) * d == q * d + d;
    }
  }
}
