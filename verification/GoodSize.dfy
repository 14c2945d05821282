/** The padded length of Bluestein's transform: the least 11-smooth number not below `n`. */
module GoodSize {
  import opened Division
  import opened Factorize
  import opened Primes

  /** `m` is a product of members of `ps`. */
  ghost predicate Generated(m: nat, ps: seq<nat>)
    decreases |ps|, m
  {
    if ps == [] then m == 1
    else Generated(m, ps[1..]) || exists h: nat :: h < m && m == ps[0] * h && Generated(h, ps)
  }

  const SMALL_PRIMES: seq<nat> := [2, 3, 5, 7, 11]

  /** No prime factor exceeds 11. */
  ghost predicate Smooth(m: nat) { m > 0 && forall p: nat :: Prime(p) && m % p == 0 ==> p <= 11 }

  lemma {:induction false} GeneratedPositive(m: nat, ps: seq<nat>)
    requires Generated(m, ps)
    ensures m > 0
    decreases |ps|, m
  {
    if ps != [] && Generated(m, ps[1..]) {
      GeneratedPositive(m, ps[1..]);
    } else if ps != [] {
      var h: nat :| h < m && m == ps[0] * h && Generated(h, ps);
    }
  }

  lemma OneMoreFactor(p: nat, h: nat, ps: seq<nat>)
    requires ps != [] && ps[0] == p > 1 && Generated(h, ps)
    ensures Generated(p * h, ps)
  {
    GeneratedPositive(h, ps);
    assert h < p * h;
  }

  lemma Skip(h: nat, ps: seq<nat>)
    requires ps != [] && Generated(h, ps[1..])
    ensures Generated(h, ps)
  {}

  // ---------- the products are the smooth numbers ----------

  lemma {:induction false} OneGenerated(ps: seq<nat>)
    ensures Generated(1, ps)
  {
    if ps != [] { OneGenerated(ps[1..]); }
  }

  lemma Exchange(p: nat, q: nat, g: nat)
    ensures q * (p * g) == p * (q * g)
  {}

  lemma {:induction false} TimesMember(p: nat, h: nat, ps: seq<nat>)
    requires p in ps && Generated(h, ps) && forall i :: 0 <= i < |ps| ==> ps[i] > 1
    ensures Generated(p * h, ps)
    decreases |ps|, h
  {
    if ps[0] == p {
      OneMoreFactor(p, h, ps);
    } else if Generated(h, ps[1..]) {
      TimesMember(p, h, ps[1..]);
      Skip(p * h, ps);
    } else {
      var g: nat :| g < h && h == ps[0] * g && Generated(g, ps);
      TimesMember(p, g, ps);
      OneMoreFactor(ps[0], p * g, ps);
      Exchange(p, ps[0], g);
    }
  }

  /** The primes up to 11. */
  lemma SmallPrimes(p: nat)
    ensures Prime(p) && p <= 11 <==> p in SMALL_PRIMES
  {
    assert p in SMALL_PRIMES ==> Prime(p);
    if p == 4 || p == 6 || p == 8 || p == 10 {
      assert p % 2 == 0;
    } else if p == 9 {
      assert p % 3 == 0;
    }
  }

  lemma {:induction false} SmoothIsGenerated(m: nat)
    requires Smooth(m)
    ensures Generated(m, SMALL_PRIMES)
  {
    if m == 1 {
      OneGenerated(SMALL_PRIMES);
    } else {
      var d := LeastDivisor(m, 2);
      LeastDivisorIsPrime(m, d);
      SmallPrimes(d);
      QuotientSmaller(m, d);
      var h := m / d;
      assert m == d * h;
      forall p: nat | Prime(p) && h % p == 0
        ensures p <= 11
      {
        DividesIfMultiple(m, h, d);
        DividesTransitive(p, h, m);
      }
      SmoothIsGenerated(h);
      TimesMember(d, h, SMALL_PRIMES);
    }
  }

  lemma SmallRemainder(a: nat, p: nat)
    requires a < p
    ensures a % p == a
  {}

  lemma PrimeDividesPrime(p: nat, q: nat)
    requires Prime(p) && Prime(q) && q % p == 0
    ensures p == q
  {
    if q < p { SmallRemainder(q, p); }
  }

  lemma OneFactor(m: nat, ps: seq<nat>) returns (h: nat)
    requires ps != [] && Generated(m, ps) && !Generated(m, ps[1..])
    ensures h < m && m == ps[0] * h && Generated(h, ps)
  {
    h :| h < m && m == ps[0] * h && Generated(h, ps);
  }

  lemma {:induction false} PrimeOfGenerated(m: nat, ps: seq<nat>, p: nat)
    requires Generated(m, ps) && Prime(p) && m % p == 0 && forall i :: 0 <= i < |ps| ==> Prime(ps[i])
    ensures p in ps
    decreases |ps|, m
  {
    if ps == [] {
      SmallRemainder(1, p);
    } else if Generated(m, ps[1..]) {
      hide *;
      PrimeOfGenerated(m, ps[1..], p);
    } else {
      var h := OneFactor(m, ps);
      hide *;
      Euclid(p, ps[0], h);
      if h % p == 0 {
        PrimeOfGenerated(h, ps, p);
      } else {
        PrimeDividesPrime(p, ps[0]);
      }
    }
  }

  lemma GeneratedIsSmooth(m: nat)
    requires Generated(m, SMALL_PRIMES)
    ensures Smooth(m)
  {
    GeneratedPositive(m, SMALL_PRIMES);
    forall i | 0 <= i < |SMALL_PRIMES|
      ensures Prime(SMALL_PRIMES[i])
    {
      SmallPrimes(SMALL_PRIMES[i]);
    }
    forall p: nat | Prime(p) && m % p == 0
      ensures p <= 11
    {
      PrimeOfGenerated(m, SMALL_PRIMES, p);
      SmallPrimes(p);
    }
  }

  /** A candidate `f * g`, for some product `g` of `ps`, that is large enough. */
  ghost predicate Candidate(c: nat, f: nat, n: nat, ps: seq<nat>) {
    c >= n && exists g: nat :: Generated(g, ps) && c == f * g
  }

  lemma MakeCandidate(c: nat, f: nat, g: nat, n: nat, ps: seq<nat>)
    requires c == f * g && c >= n && Generated(g, ps)
    ensures Candidate(c, f, n, ps)
  {}

  lemma AtLeastOneTimes(f: nat, g: nat)
    requires g > 0
    ensures f * g >= f
  {}

  lemma Associate(f: nat, p: nat, h: nat)
    ensures f * (p * h) == (f * p) * h
  {}

  lemma SplitGenerated(g: nat, ps: seq<nat>) returns (h: nat)
    requires ps != [] && Generated(g, ps)
    ensures Generated(g, ps[1..]) || (g == ps[0] * h && Generated(h, ps))
  {
    if Generated(g, ps[1..]) {
      h := 0;
    } else {
      h :| h < g && g == ps[0] * h && Generated(h, ps);
    }
  }

  /** A candidate from `f` is one of the inner loop's, or one of the next turn's. */
  lemma CandidateSplit(c: nat, f: nat, n: nat, ps: seq<nat>)
    requires ps != [] && ps[0] > 1 && f > 0 && Candidate(c, f, n, ps)
    ensures c >= f
    ensures Candidate(c, f, n, ps[1..]) || Candidate(c, f * ps[0], n, ps)
  {
    hide Generated;
    var g: nat :| Generated(g, ps) && c == f * g;
    GeneratedPositive(g, ps);
    AtLeastOneTimes(f, g);
    var h := SplitGenerated(g, ps);
    Associate(f, ps[0], h);
  }

  lemma CandidateFromNext(c: nat, f: nat, n: nat, ps: seq<nat>)
    requires ps != [] && ps[0] > 1 && Candidate(c, f * ps[0], n, ps)
    ensures Candidate(c, f, n, ps)
  {
    var h: nat :| Generated(h, ps) && c == (f * ps[0]) * h;
    OneMoreFactor(ps[0], h, ps);
    Associate(f, ps[0], h);
    MakeCandidate(c, f, ps[0] * h, n, ps);
  }

  lemma CandidateFromInner(c: nat, f: nat, n: nat, ps: seq<nat>)
    requires ps != [] && Candidate(c, f, n, ps[1..])
    ensures Candidate(c, f, n, ps)
  {
    var h: nat :| Generated(h, ps[1..]) && c == f * h;
    Skip(h, ps);
    MakeCandidate(c, f, h, n, ps);
  }

  /** The nest of loops over `ps`, pruned by the best size found so far. */
  method Search(f0: nat, n: nat, best0: nat, ps: seq<nat>) returns (best: nat)
    requires f0 > 0 && forall i :: 0 <= i < |ps| ==> ps[i] > 1
    ensures best <= best0 && (best == best0 || Candidate(best, f0, n, ps))
    ensures forall c: nat :: Candidate(c, f0, n, ps) ==> best <= c
    decreases |ps|
  {
    best := best0;
    if ps == [] {
      if f0 < best && f0 >= n {
        MakeCandidate(f0, f0, 1, n, ps);
        best := f0;
      }
      return;
    }
    var f := f0;
    while f < best
      invariant f > 0 && best <= best0
      invariant best == best0 || Candidate(best, f0, n, ps)
      invariant forall c: nat :: Candidate(c, f, n, ps) ==> Candidate(c, f0, n, ps)
      invariant forall c: nat :: Candidate(c, f0, n, ps) ==> best <= c || Candidate(c, f, n, ps)
      decreases best0 - f
    {
      ghost var was := best;
      best := Search(f, n, best, ps[1..]);
      if best != was {
        CandidateFromInner(best, f, n, ps);
      }
      forall c: nat | Candidate(c, f * ps[0], n, ps)
        ensures Candidate(c, f, n, ps)
      {
        CandidateFromNext(c, f, n, ps);
      }
      forall c: nat | Candidate(c, f, n, ps)
        ensures best <= c || Candidate(c, f * ps[0], n, ps)
      {
        CandidateSplit(c, f, n, ps);
      }
      assert f * ps[0] >= f * 2;
      f := f * ps[0];
    }
    forall c: nat | Candidate(c, f, n, ps)
      ensures best <= c
    {
      CandidateSplit(c, f, n, ps);
    }
  }

  lemma {:induction false} PowerOfTwoBetween(n: nat) returns (p: nat)
    requires n > 0
    ensures n <= p < 2 * n && Generated(p, SMALL_PRIMES)
  {
    if n == 1 {
      p := 1;
      SmallAreSmooth(1);
    } else {
      var q := PowerOfTwoBetween((n + 1) / 2);
      OneMoreFactor(2, q, SMALL_PRIMES);
      p := 2 * q;
      if p >= 2 * n {
        p := q;
      }
    }
  }

  lemma SmallAreSmooth(m: nat)
    requires 1 <= m <= 6
    ensures Generated(m, SMALL_PRIMES)
  {
    var ps := SMALL_PRIMES;
    assert Generated(1, ps[1..][1..][1..][1..][1..]);
    Skip(1, ps[1..][1..][1..][1..]);
    Skip(1, ps[1..][1..][1..]);
    Skip(1, ps[1..][1..]);
    Skip(1, ps[1..]);
    OneMoreFactor(5, 1, ps[1..][1..]);
    OneMoreFactor(3, 1, ps[1..]);
    Skip(5, ps[1..]);
    Skip(1, ps);
    Skip(3, ps);
    Skip(5, ps);
    OneMoreFactor(2, 1, ps);
    OneMoreFactor(2, 2, ps);
    OneMoreFactor(2, 3, ps);
  }

  lemma CandidateOfOne(c: nat, n: nat)
    requires Candidate(c, 1, n, SMALL_PRIMES)
    ensures c >= n && Smooth(c)
  {
    hide Smooth, Generated;
    var g: nat :| Generated(g, SMALL_PRIMES) && c == 1 * g;
    GeneratedIsSmooth(c);
  }

  /** good_size. */
  method Compute(n: nat) returns (size: nat)
    requires n > 0
    ensures size >= n && Smooth(size)
    ensures forall m: nat :: m >= n && Smooth(m) ==> size <= m
  {
    if n <= 6 {
      SmallAreSmooth(n);
      GeneratedIsSmooth(n);
      return n;
    }
    hide Smooth, Generated;
    size := Search(1, n, 2 * n, SMALL_PRIMES);
    var p := PowerOfTwoBetween(n);
    MakeCandidate(p, 1, p, n, SMALL_PRIMES);
    CandidateOfOne(size, n);
    forall m: nat | m >= n && Smooth(m)
      ensures size <= m
    {
      SmoothIsGenerated(m);
      MakeCandidate(m, 1, m, n, SMALL_PRIMES);
    }
  }
}
