/** Quotient and remainder are what multiplying back says they are. */
module Division {

  lemma ProductStep(p: nat, x: int, y: int)
    requires x + 1 <= y
    ensures p * x + p <= p * y
  {
    var d := y - x - 1;
    NotNegative(p, d);
    assert y == x + 1 + d;
    assert p * (x + 1 + d) == p * x + p + p * d;
  }

  lemma NotNegative(p: nat, d: nat)
    ensures p * d >= 0
  {}

  lemma ModUnique(a: int, p: nat, q: int, r: nat)
    requires p > 0 && r < p && a == p * q + r
    ensures a % p == r && a / p == q
  {
    var q', r' := a / p, a % p;
    assert a == p * q' + r';
    if q' < q {
      ProductStep(p, q', q);
    } else if q < q' {
      ProductStep(p, q, q');
    }
  }

  lemma DividesIfMultiple(a: int, p: nat, k: int)
    requires p > 0 && a == p * k
    ensures a % p == 0
  {
    ModUnique(a, p, k, 0);
  }

  lemma DivMod(a: nat, p: nat) returns (q: nat, r: nat)
    requires p > 0
    ensures q == a / p && r == a % p && a == r + p * q && r < p
  {
    q, r := a / p, a % p;
  }

  lemma QuotientBracket(a: nat, p: nat, c: nat)
    requires p > 0 && a / p == c
    ensures c * p <= a < c * p + p
  {
    var q, r := DivMod(a, p);
    assert p * q == c * p;
  }
}
