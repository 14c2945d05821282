/** The few facts about primes that the planner and the generic pass lean on. */
module Primes {
  import opened Division

  predicate Prime(p: nat) {
    p > 1 && forall d: nat :: 1 < d < p ==> p % d != 0
  }

  /** Euclid: a prime divides no product of two smaller positive numbers. */
  lemma {:induction false} NoSmallProduct(p: nat, a: nat, b: nat)
    requires Prime(p) && 0 < a < p && 0 < b < p
    ensures (a * b) % p != 0
    decreases a
  {
    if a == 1 {
      ModUnique(b, p, 0, b);
    } else if (a * b) % p == 0 {
      var q, s := p / a, p % a;
      NoSmallProduct(p, s, b);
      var m := (a * b) / p;
      assert s * b == p * b - q * (a * b) by { Distribute(p, a, q, s, b); }
      assert a * b == p * m;
      assert s * b == p * (b - q * m) by { Factor(p, b, q, m, a * b); }
      DividesIfMultiple(s * b, p, b - q * m);
    }
  }

  lemma Distribute(p: int, a: int, q: int, s: int, b: int)
    requires p == a * q + s
    ensures s * b == p * b - q * (a * b)
  {
    assert p * b == (a * q) * b + s * b;
    assert (a * q) * b == q * (a * b);
  }

  lemma Factor(p: int, b: int, q: int, m: int, t: int)
    requires t == p * m
    ensures p * b - q * t == p * (b - q * m)
  {
    assert q * (p * m) == p * (q * m);
  }

  lemma Reduce(p: nat, a: nat, b: nat)
    requires p > 0 && (a * b) % p == 0
    ensures ((a % p) * (b % p)) % p == 0
  {
    var q, s, u, v := a / p, a % p, b / p, b % p;
    var m := (a * b) / p;
    assert a == p * q + s && b == p * u + v && a * b == p * m;
    Products(p, q, s, u, v);
    DividesIfMultiple(s * v, p, m - q * b - s * u);
  }

  lemma Products(p: int, q: int, s: int, u: int, v: int)
    ensures (p * q + s) * (p * u + v) == p * (q * (p * u + v)) + p * (s * u) + s * v
  {
    var b := p * u + v;
    assert (p * q + s) * b == (p * q) * b + s * b;
    assert (p * q) * b == p * (q * b);
    assert s * b == s * (p * u) + s * v;
    assert s * (p * u) == p * (s * u);
  }

  /** A prime that divides a product divides one of its factors. */
  lemma Euclid(p: nat, a: nat, b: nat)
    requires Prime(p) && (a * b) % p == 0
    ensures a % p == 0 || b % p == 0
  {
    Reduce(p, a, b);
    if a % p != 0 && b % p != 0 {
      NoSmallProduct(p, a % p, b % p);
    }
  }
}
