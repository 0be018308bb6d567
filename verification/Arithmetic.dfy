/** Products and quotients of naturals: the few facts about them that tiles
    (Tiling), passes (RoundRobin) and limited rows (TwoHop) come down to.  They
    are stated without division wherever a product will do, which the proofs
    that use them do not have to unfold. */
module Arithmetic {

  lemma {:induction false} MulStep(a: nat, b: nat)
    ensures (a + 1) * b == a * b + b
  {
  }

  lemma {:induction false} MulMonotone(a: nat, c: nat, b: nat)
    requires a <= c
    ensures a * b <= c * b
  {
    if a < c {
      MulMonotone(a, c - 1, b);
      MulStep(c - 1, b);
    }
  }

  lemma {:induction false} MulBelow(a: nat, c: nat, b: nat)
    ensures a < c ==> a * b + b <= c * b
  {
    if a < c {
      MulStep(a, b);
      MulMonotone(a + 1, c, b);
    }
  }

  lemma {:induction false} DivUnique(x: nat, b: nat, q: nat, r: nat)
    requires b > 0 && r < b && x == q * b + r
    ensures x / b == q && x % b == r
  {
    assert x / b * b + x % b == x;
    MulBelow(x / b, q, b);
    MulBelow(q, x / b, b);
  }
}
