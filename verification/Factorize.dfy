/** How a plan's length is split into radices. */
module Factorize {
  import opened Primes
  import opened Division

  /** The product of the first factors is what `l1` runs through. */
  function Product(s: seq<nat>): (p: nat)
    ensures (forall i :: 0 <= i < |s| ==> s[i] > 0) ==> p > 0
  {
    if s == [] then 1 else Product(s[..|s| - 1]) * s[|s| - 1]
  }

  function Pow3(k: nat): (r: nat)
    ensures r > 0
  {
    if k == 0 then 1 else 3 * Pow3(k - 1)
  }

  /** The radices the planner may emit: 4, 2, and odd primes. */
  predicate Radix(f: nat) { f == 2 || f == 4 || (f % 2 == 1 && Prime(f)) }

  /** Factors of at least 3, with at most one 2 at the front. */
  predicate Planned(s: seq<nat>) {
    && (forall i :: 0 <= i < |s| ==> Radix(s[i]))
    && forall i :: 0 < i < |s| ==> s[i] != 2
  }

  /** The even factors stand before the odd ones. */
  predicate EvensFirst(s: seq<nat>) { forall i, j :: 0 <= i < j < |s| && s[j] % 2 == 0 ==> s[i] % 2 == 0 }

  lemma EvensFirstAppend(s: seq<nat>, p: nat)
    requires EvensFirst(s) && p % 2 == 1
    ensures EvensFirst(s + [p])
  {}

  lemma {:induction false} OddProduct(s: seq<nat>)
    requires forall i :: 0 <= i < |s| ==> s[i] % 2 == 1
    ensures Product(s) % 2 == 1
  {
    if s != [] {
      OddProduct(s[..|s| - 1]);
      OddTimesOdd(Product(s[..|s| - 1]), s[|s| - 1]);
    }
  }

  lemma OddTimesOdd(a: nat, b: nat)
    requires a % 2 == 1 && b % 2 == 1
    ensures (a * b) % 2 == 1
  {
    var x, y := a / 2, b / 2;
    assert a * b == 2 * (2 * (x * y) + x + y) + 1 by {
      assert a == 2 * x + 1 && b == 2 * y + 1;
    }
  }

  lemma RadixSize(f: nat)
    requires Radix(f)
    ensures f >= 2 && (f != 2 ==> f >= 3)
  {}

  lemma ProductAppend(s: seq<nat>, x: nat)
    ensures Product(s + [x]) == Product(s) * x
  {
    assert (s + [x])[..|s|] == s;
  }

  lemma {:induction false} ProductFront(x: nat, s: seq<nat>)
    ensures Product([x] + s) == x * Product(s)
  {
    if s == [] {
      assert ([x] + s)[..0] == [];
    } else {
      var t, y := s[..|s| - 1], s[|s| - 1];
      assert ([x] + s)[..|s|] == [x] + t;
      ProductFront(x, t);
      assert (x * Product(t)) * y == x * (Product(t) * y);
    }
  }

  lemma TimesThree(p: nat, y: nat)
    requires y >= 3
    ensures p * y >= 3 * p
  {}

  /** A planned list of `k` factors multiplies to at least `2 * 3^(k-1)`. */
  lemma {:induction false} ProductLower(s: seq<nat>)
    requires Planned(s) && |s| > 0
    ensures Product(s) >= 2 * Pow3(|s| - 1)
  {
    var t, y := s[..|s| - 1], s[|s| - 1];
    RadixSize(y);
    if t == [] {
      assert Product(s) == 1 * y;
    } else {
      ProductLower(t);
      TimesThree(Product(t), y);
    }
  }

  /** The largest number whose square does not exceed `n`. */
  function ISqrt(n: nat): (s: nat)
    ensures s * s <= n < (s + 1) * (s + 1)
  {
    if n == 0 then 0
    else
      var s := ISqrt(n - 1);
      if (s + 1) * (s + 1) <= n then s + 1 else s
  }

  ghost predicate NoDivisorBelow(n: nat, b: nat) {
    forall d: nat :: 1 < d < b ==> n % d != 0
  }

  lemma DividesTransitive(a: nat, b: nat, n: nat)
    requires a > 0 && b > 0 && b % a == 0 && n % b == 0
    ensures n % a == 0
  {
    var x, y := b / a, n / b;
    assert n == a * (x * y) by { assert n == b * y && b == a * x; Assoc(a, x, y); }
    DividesIfMultiple(n, a, x * y);
  }

  lemma Assoc(a: int, x: int, y: int)
    ensures (a * x) * y == a * (x * y)
  {}

  lemma OddHasNoEvenDivisor(n: nat, d: nat)
    requires n % 2 == 1 && d > 0 && d % 2 == 0
    ensures n % d != 0
  {
    if n % d == 0 {
      DividesTransitive(2, d, n);
    }
  }

  /** The smallest divisor left is prime. */
  lemma LeastDivisorIsPrime(n: nat, d: nat)
    requires d > 1 && n % d == 0 && NoDivisorBelow(n, d)
    ensures Prime(d)
  {
    forall e: nat | 1 < e < d
      ensures d % e != 0
    {
      if d % e == 0 {
        DividesTransitive(e, d, n);
      }
    }
  }

  lemma QuotientKeepsNoDivisor(n: nat, d: nat, b: nat)
    requires d > 0 && n > 0 && n % d == 0 && NoDivisorBelow(n, b)
    ensures n / d > 0 && NoDivisorBelow(n / d, b)
  {
    assert n == (n / d) * d;
    forall e: nat | 1 < e < b
      ensures (n / d) % e != 0
    {
      if (n / d) % e == 0 {
        DividesIfMultiple(n, n / d, d);
        DividesTransitive(e, n / d, n);
      }
    }
  }

  /** Of a divisor and its cofactor, one does not exceed the root. */
  lemma SmallDivisor(n: nat, d: nat, s: nat) returns (e: nat)
    requires 1 < d < n && n % d == 0 && n < (s + 1) * (s + 1)
    ensures 1 < e <= s && n % e == 0
  {
    if d <= s {
      return d;
    }
    e := n / d;
    assert n == d * e;
    if e > s {
      Monotone(d, e, s + 1);
    }
    if e <= 1 {
      SquaresMonotone(d, e);
    }
    DividesIfMultiple(n, e, d);
  }

  lemma Monotone(d: nat, e: nat, s: nat)
    requires d >= s && e >= s
    ensures d * e >= s * s
  {
    assert d * e >= s * e && s * e >= s * s;
  }

  lemma SquaresMonotone(d: nat, e: nat)
    requires e <= 1
    ensures d * e <= d
  {}

  /** A number above 1 without a divisor up to its root is prime. */
  lemma PrimeByTrial(n: nat, b: nat)
    requires n > 1 && NoDivisorBelow(n, b) && b > ISqrt(n)
    ensures Prime(n)
  {
    forall d: nat | 1 < d < n
      ensures n % d != 0
    {
      if n % d == 0 {
        var e := SmallDivisor(n, d, ISqrt(n));
      }
    }
  }

  // ---------- the list the planner builds ----------

  /** The least divisor of `n` from `d` on. */
  function LeastDivisor(n: nat, d: nat): (r: nat)
    requires 1 < d <= n
    ensures d <= r <= n && n % r == 0 && forall e: nat :: d <= e < r ==> n % e != 0
    decreases n - d
  {
    if n % d == 0 then d else LeastDivisor(n, d + 1)
  }

  lemma LeastIs(n: nat, d: nat)
    requires 1 < d <= n && n % d == 0 && NoDivisorBelow(n, d)
    ensures LeastDivisor(n, 2) == d
  {}

  lemma QuotientSmaller(n: nat, d: nat)
    requires 1 < d <= n && n % d == 0
    ensures 0 < n / d < n
  {
    var q := n / d;
    assert n == d * q;
    TimesAtLeastTwo(d, q);
  }

  lemma TimesAtLeastTwo(d: nat, q: nat)
    requires d > 1
    ensures d * q >= 2 * q
  {}

  /** The prime factors in ascending order. */
  function PrimesOf(n: nat): (f: seq<nat>)
    requires n > 0
    ensures n > 1 ==> f != []
  {
    if n == 1 then []
    else
      var d := LeastDivisor(n, 2);
      QuotientSmaller(n, d);
      [d] + PrimesOf(n / d)
  }

  lemma PrimesStep(n: nat, d: nat)
    requires 1 < d <= n && n % d == 0 && NoDivisorBelow(n, d)
    ensures n / d > 0 && PrimesOf(n) == [d] + PrimesOf(n / d)
  {
    LeastIs(n, d);
    QuotientSmaller(n, d);
  }

  lemma PrimesOfPrime(n: nat)
    requires Prime(n)
    ensures PrimesOf(n) == [n]
  {
    PrimesStep(n, n);
    assert n / n == 1;
  }

  /** How often 4 divides `n`, and what is left then. */
  function Fours(n: nat): nat
    requires n > 0
  {
    if n % 4 == 0 then 1 + Fours(n / 4) else 0
  }

  function WithoutFours(n: nat): (r: nat)
    requires n > 0
    ensures r > 0
  {
    if n % 4 == 0 then WithoutFours(n / 4) else n
  }

  function Repeated(k: nat, v: nat): (s: seq<nat>)
    ensures |s| == k && forall i :: 0 <= i < k ==> s[i] == v
  {
    seq(k, _ => v)
  }

  /** The factor list of `n`: at most one 2, the fours, and the odd primes in ascending order. */
  function FactorsOf(n: nat): seq<nat>
    requires n > 0
  {
    var m := WithoutFours(n);
    if m % 2 == 0 then [2] + Repeated(Fours(n), 4) + PrimesOf(m / 2) else Repeated(Fours(n), 4) + PrimesOf(m)
  }

  lemma Pow3Odd(k: nat)
    ensures Pow3(k) % 2 == 1
  {}

  lemma FiveThrees(p: nat)
    ensures 5 * (3 * p) == 3 * (5 * p)
  {}

  lemma {:induction false} ThreesAndFive(k: nat)
    ensures PrimesOf(5 * Pow3(k)) == Repeated(k, 3) + [5]
  {
    var n := 5 * Pow3(k);
    Pow3Odd(k);
    if k == 0 {
      assert NoDivisorBelow(5, 5);
      PrimesStep(5, 5);
      assert PrimesOf(1) == [];
    } else {
      FiveThrees(Pow3(k - 1));
      assert NoDivisorBelow(n, 3);
      PrimesStep(n, 3);
      ThreesAndFive(k - 1);
      hide PrimesOf;
      assert Repeated(k, 3) == [3] + Repeated(k - 1, 3);
    }
  }
}
