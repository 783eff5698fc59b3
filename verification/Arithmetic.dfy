/** Products and quotients of naturals, where the solver needs help. */
module Arithmetic {

  lemma {:induction false} MulGap(a: nat, b: nat, p: nat)
    requires a < b
    ensures a * p + p <= b * p
    decreases b
  {
    assert b * p == (b - 1) * p + p;
    if a < b - 1 {
      MulGap(a, b - 1, p);
    }
  }

  lemma SameQuotient(q: nat, t: nat, d: nat, r: nat, p: nat)
    requires q * p + t == d * p + r && t < p && r < p
    ensures q == d && t == r
  {
    if q < d {
      MulGap(q, d, p);
    } else if d < q {
      MulGap(d, q, p);
    }
  }

  lemma DivMod(q: nat, t: nat, p: nat)
    requires t < p
    ensures (q * p + t) / p == q && (q * p + t) % p == t
  {
    var j := q * p + t;
    assert j == (j / p) * p + j % p;
    SameQuotient(q, t, j / p, j % p, p);
  }
}
