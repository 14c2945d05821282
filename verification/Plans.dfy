/** The plan of a complex transform: its radices and its arena of twiddle factors. */
module Plans {
  import opened Basics
  import opened Complexes
  import opened Dft
  import opened RadixPass
  import opened Passes
  import opened Primes
  import opened Division
  import opened Factorize

  const NFCT: nat := 25

  function L1(fct: seq<nat>, k: nat): nat
    requires k <= |fct|
  {
    Product(fct[..k])
  }

  /** What the planner gets stored: up to NFCT factors, and one more if it is the unchecked last one,
      a new prime. */
  ghost predicate Stored(f: seq<nat>) { |f| <= NFCT || (|f| == NFCT + 1 && f[NFCT] != f[NFCT - 1]) }

  /** cfftp_factorize and rfftp_factorize. */
  method FactorizeLength(n: nat) returns (ok: bool, fct: seq<nat>)
    requires n > 0
    ensures ok <==> Stored(FactorsOf(n))
    ensures ok ==> fct == FactorsOf(n)
    ensures ok && |fct| > NFCT <==> Overruns(n)
    ensures Overruns(n) ==> n >= 2 * Pow3(NFCT)
    ensures ok ==> Product(fct) == n && Planned(fct) && EvensFirst(fct)
    ensures n < 2 * Pow3(NFCT - 1) ==> ok && |fct| < NFCT
  {
    hide *;
    var length := n;
    fct := [];
    FoursStart(n);
    while length % 4 == 0
      invariant FoursUnderWay(fct, length, n)
      decreases length
    {
      FourStep(fct, length, n);
      if |fct| >= NFCT {
        return false, fct;
      }
      fct := fct + [4];
      length := length / 4;
    }
    FoursEnd(fct, length, n);
    if length % 2 == 0 {
      length := length / 2;
      if |fct| >= NFCT {
        return false, fct;
      }
      fct := MoveTwoToFront(fct);
    }
    ok, fct := OddFactors(fct, length, n);
    if ok { ListIsLong(fct, n); }
    if !ok { NoOverrun(n); }
  }

  /** The fours found so far, and what is left. */
  ghost predicate FoursUnderWay(fct: seq<nat>, length: nat, n: nat) {
    && n > 0 && length > 0 && Product(fct) * length == n
    && fct == Repeated(|fct|, 4) && |fct| <= NFCT
    && Fours(n) == |fct| + Fours(length) && WithoutFours(n) == WithoutFours(length)
  }

  lemma FoursStart(n: nat)
    requires n > 0
    ensures FoursUnderWay([], n, n)
  {
    assert Product([]) == 1;
  }

  lemma FourStep(fct: seq<nat>, length: nat, n: nat)
    requires FoursUnderWay(fct, length, n) && length % 4 == 0
    ensures 0 < length / 4 < length
    ensures |fct| < NFCT ==> FoursUnderWay(fct + [4], length / 4, n)
    ensures |fct| >= NFCT ==> !Stored(FactorsOf(n)) && !Overruns(n) && n >= 2 * Pow3(NFCT - 1)
  {
    ProductAppend(fct, 4);
    Regroup3(Product(fct), 4, length / 4);
    FoursAre(fct);
    assert fct + [4] == Repeated(|fct| + 1, 4);
    hide Product, Repeated, PrimesOf, Pow3, Planned, EvensFirst, WithoutFours;
    if |fct| >= NFCT {
      TooLong(fct, length, n);
      ManyFours(n, Fours(n));
    }
  }

  lemma FoursAre(fct: seq<nat>)
    requires fct == Repeated(|fct|, 4)
    ensures Planned(fct) && EvensFirst(fct) && forall i :: 0 <= i < |fct| ==> fct[i] == 4
  {}

  lemma ManyFours(n: nat, k: nat)
    requires n > 0 && k == Fours(n) && k > NFCT
    ensures !Stored(FactorsOf(n))
  {
    hide PrimesOf, WithoutFours, Fours;
  }

  /** What the factor 2 and the odd factors start from. */
  lemma FoursEnd(fct: seq<nat>, length: nat, n: nat)
    requires FoursUnderWay(fct, length, n) && length % 4 != 0
    ensures Planned(fct) && EvensFirst(fct) && |fct| <= NFCT && (forall i :: 0 <= i < |fct| ==> fct[i] == 4) &&
            Product(fct) * length == n
    ensures length % 2 == 1 ==> FactorsOf(n) == fct + PrimesOf(length)
    ensures length % 2 == 0 ==>
              length / 2 > 0 && (length / 2) % 2 == 1 && FactorsOf(n) == [2] + fct + PrimesOf(length / 2)
    ensures length % 2 == 0 ==> Product(fct) * 2 * (length / 2) == n
    ensures length % 2 == 0 && |fct| >= NFCT ==> !Stored(FactorsOf(n)) && !Overruns(n) && n >= 2 * Pow3(NFCT - 1)
  {
    hide *;
    FoursParts(fct, length, n);
    FoursAre(fct);
    Regroup3(Product(fct), 2, length / 2);
    if length % 2 == 0 {
      assert length == 2 * (length / 2);
      if |fct| >= NFCT {
        TooLong(fct, length, n);
        TwentySix(fct, FactorsOf(n), PrimesOf(length / 2));
        NoOverrun(n);
      }
    }
  }

  lemma FoursParts(fct: seq<nat>, length: nat, n: nat)
    requires FoursUnderWay(fct, length, n)
    ensures n > 0 && length > 0 && Product(fct) * length == n && fct == Repeated(|fct|, 4) && |fct| <= NFCT
    ensures length % 2 == 1 ==> FactorsOf(n) == fct + PrimesOf(length)
    ensures length % 4 != 0 && length % 2 == 0 ==> length / 2 > 0 && FactorsOf(n) == [2] + fct + PrimesOf(length / 2)
  {
    hide Product, PrimesOf, Repeated;
    if length % 4 != 0 { assert Fours(length) == 0 && WithoutFours(length) == length; }
  }

  lemma TwentySix(fct: seq<nat>, f: seq<nat>, rest: seq<nat>)
    requires |fct| == NFCT && (forall i :: 0 <= i < |fct| ==> fct[i] == 4) && f == [2] + fct + rest
    ensures !Stored(f)
  {
    assert f[NFCT] == 4 && f[NFCT - 1] == 4;
  }

  lemma ListIsLong(fct: seq<nat>, n: nat)
    requires n > 0 && Stored(FactorsOf(n)) && fct == FactorsOf(n) && Product(fct) == n && Planned(fct)
    ensures |fct| > NFCT <==> Overruns(n)
    ensures |fct| > NFCT ==> n >= 2 * Pow3(NFCT)
    ensures n < 2 * Pow3(NFCT - 1) ==> |fct| < NFCT
  {
    hide Product, FactorsOf, Pow3, Planned;
    if |fct| >= NFCT {
      ProductLower(fct);
      Pow3Monotone(NFCT - 1, |fct| - 1);
    }
  }

  lemma NoOverrun(n: nat)
    requires n > 0 && !Stored(FactorsOf(n))
    ensures !Overruns(n)
  {}

  /** The lengths whose last factor is stored past the end of the array. */
  ghost predicate Overruns(n: nat)
    requires n > 0
  {
    |FactorsOf(n)| == NFCT + 1 && Stored(FactorsOf(n))
  }

  lemma OverrunExample()
    ensures 5 * Pow3(25) > 0 && Overruns(5 * Pow3(25))
  {
    hide *;
    var n := 5 * Pow3(25);
    Pow3Odd(25);
    ThreesAndFive(25);
    assert n % 2 == 1;
    OddList(n, PrimesOf(n));
    ThreesThenFive(n);
  }

  lemma OddList(n: nat, f: seq<nat>)
    requires n > 0 && n % 2 == 1 && f == PrimesOf(n)
    ensures FactorsOf(n) == f
  {
    assert Fours(n) == 0 && WithoutFours(n) == n;
    hide PrimesOf;
  }

  lemma ThreesThenFive(n: nat)
    requires n > 0 && FactorsOf(n) == Repeated(25, 3) + [5]
    ensures Overruns(n)
  {
    hide FactorsOf;
  }

  lemma Regroup3(p: nat, x: nat, len: nat)
    ensures p * (x * len) == (p * x) * len
  {}

  lemma {:induction false} Pow3Monotone(a: nat, b: nat)
    requires a <= b
    ensures Pow3(a) <= Pow3(b)
    decreases b
  {
    if a < b { Pow3Monotone(a, b - 1); }
  }

  lemma TooLong(fct: seq<nat>, length: nat, n: nat)
    requires Planned(fct) && |fct| >= NFCT && length > 0 && Product(fct) * length == n
    ensures n >= 2 * Pow3(NFCT - 1)
  {
    hide Product, Planned, Pow3;
    ProductLower(fct);
    Pow3Monotone(NFCT - 1, |fct| - 1);
    AtLeastOneTimes(Product(fct), length);
  }

  lemma AtLeastOneTimes(f: nat, g: nat)
    requires g > 0
    ensures f * g >= f
  {}

  /** Appending the factor 2 and swapping it with the first factor. */
  method MoveTwoToFront(fct: seq<nat>) returns (moved: seq<nat>)
    requires forall i :: 0 <= i < |fct| ==> fct[i] == 4
    ensures moved == [2] + fct && forall i :: 0 <= i < |moved| ==> moved[i] % 2 == 0
    ensures Product(moved) == Product(fct) * 2 && Planned(moved) && EvensFirst(moved) && |moved| == |fct| + 1
  {
    moved := fct + [2];
    var first, last := moved[0], moved[|moved| - 1];
    moved := moved[0 := last][|moved| - 1 := first];
    assert moved == [2] + fct;
    hide *;
    TwoInFront(fct);
  }

  lemma TwoInFront(fct: seq<nat>)
    requires forall i :: 0 <= i < |fct| ==> fct[i] == 4
    ensures Product([2] + fct) == Product(fct) * 2 && Planned([2] + fct) && EvensFirst([2] + fct)
    ensures forall i :: 0 <= i < |fct| + 1 ==> ([2] + fct)[i] % 2 == 0
  {
    ProductFront(2, fct);
    hide Product;
    var f := [2] + fct;
    assert forall i :: 0 <= i < |f| ==> f[i] == if i == 0 then 2 else 4;
  }

  /** The trial division by odd numbers. */
  method OddFactors(start: seq<nat>, odd: nat, n: nat) returns (ok: bool, fct: seq<nat>)
    requires odd > 0 && odd % 2 == 1 && Planned(start) && EvensFirst(start) && Product(start) * odd == n
    requires |start| <= NFCT && forall i :: 0 <= i < |start| ==> start[i] % 2 == 0
    ensures ok <==> Stored(start + PrimesOf(odd))
    ensures ok ==> fct == start + PrimesOf(odd)
    ensures ok ==> Product(fct) == n && Planned(fct) && EvensFirst(fct)
    ensures !ok ==> n >= 2 * Pow3(NFCT - 1)
  {
    hide *;
    var length: nat := odd;
    fct := start;
    ghost var whole := start + PrimesOf(odd);
    var maxl := ISqrt(length) + 1;
    var divisor := 3;
    OddStart(start, odd, n);
    while length > 1 && divisor < maxl
      invariant divisor % 2 == 1 && divisor >= 3 && maxl == ISqrt(length) + 1
      invariant OddUnderWay(fct, length, divisor, divisor, n, whole)
      decreases maxl + length - divisor
    {
      ghost var before := length;
      if length % divisor == 0 {
        OddPrime(fct, length, divisor, n, whole);
        ok, fct, length := DivideOut(fct, length, divisor, n, whole);
        if !ok {
          return;
        }
        maxl := ISqrt(length) + 1;
        RootMonotone(length, before);
      }
      OddOn(fct, length, divisor, n, whole);
      divisor := divisor + 2;
    }
    OddEnd(fct, length, divisor, n, whole);
    if length > 1 {
      fct := fct + [length];
    }
    ok := true;
  }

  /** The odd factors found so far, and what is left: nothing below `d` divides it. */
  ghost predicate OddUnderWay(fct: seq<nat>, length: nat, d: nat, e: nat, n: nat, whole: seq<nat>) {
    && length > 0 && length % 2 == 1 && Planned(fct) && EvensFirst(fct) && Product(fct) * length == n
    && NoDivisorBelow(length, d) && |fct| <= NFCT && fct + PrimesOf(length) == whole && SmallOdds(fct, e)
  }

  lemma OddStart(start: seq<nat>, odd: nat, n: nat)
    requires odd > 0 && odd % 2 == 1 && Planned(start) && EvensFirst(start) && Product(start) * odd == n
    requires |start| <= NFCT && forall i :: 0 <= i < |start| ==> start[i] % 2 == 0
    ensures OddUnderWay(start, odd, 3, 3, n, start + PrimesOf(odd))
  {
    OnlyTwoBelowThree(odd);
    hide Product, PrimesOf, Planned, EvensFirst, NoDivisorBelow;
  }

  lemma OddPrime(fct: seq<nat>, length: nat, d: nat, n: nat, whole: seq<nat>)
    requires OddUnderWay(fct, length, d, d, n, whole) && 1 < d <= ISqrt(length) && length % d == 0
    ensures Prime(d) && length > d
  {
    LeastDivisorIsPrime(length, d);
    RootAbove(d, length);
  }

  lemma OddOn(fct: seq<nat>, length: nat, d: nat, n: nat, whole: seq<nat>)
    requires d % 2 == 1 && d > 1 && ((OddUnderWay(fct, length, d, d, n, whole) && length % d != 0) ||
                                     OddUnderWay(fct, length, d + 1, d + 1, n, whole))
    ensures OddUnderWay(fct, length, d + 2, d + 2, n, whole)
  {
    hide Product, PrimesOf, Planned, EvensFirst;
    assert NoDivisorBelow(length, d) && length % d != 0;
    hide NoDivisorBelow;
    NextOdd(length, d);
  }

  lemma OddEnd(fct: seq<nat>, length: nat, d: nat, n: nat, whole: seq<nat>)
    requires OddUnderWay(fct, length, d, d, n, whole) && (length <= 1 || d > ISqrt(length))
    ensures var f := if length > 1 then fct + [length] else fct;
            f == whole && Stored(whole) && Product(f) == n && Planned(f) && EvensFirst(f)
  {
    if length > 1 {
      PrimeByTrial(length, d);
      PrimesOfPrime(length);
      ProductAppend(fct, length);
      PlannedAppend(fct, length);
      EvensFirstAppend(fct, length);
      NewLast(fct, length, d);
    } else {
      NoPrimes(fct);
    }
    hide Product, PrimesOf, Planned, EvensFirst, NoDivisorBelow, Stored, ISqrt, Prime;
  }

  /** The odd factors found so far are below the divisor. */
  ghost predicate SmallOdds(f: seq<nat>, d: nat) { forall i :: 0 <= i < |f| ==> f[i] % 2 == 0 || 1 < f[i] < d }

  lemma RootAbove(d: nat, n: nat)
    requires 1 < d <= ISqrt(n)
    ensures d < n
  {
    Factorize.Monotone(ISqrt(n), ISqrt(n), d);
    TimesAtLeastTwo(d, d);
  }

  /** What is left over is a new prime. */
  lemma NewLast(f: seq<nat>, p: nat, d: nat)
    requires |f| <= NFCT && p > 1 && p % 2 == 1 && NoDivisorBelow(p, d) && SmallOdds(f, d)
    ensures Stored(f + [p])
  {
    if |f| == NFCT {
      assert f[NFCT - 1] != p by {
        assert p % p == 0;
      }
    }
  }

  lemma NoPrimes(f: seq<nat>)
    requires |f| <= NFCT
    ensures f + PrimesOf(1) == f && Stored(f)
  {}

  lemma OnlyTwoBelowThree(n: nat)
    requires n % 2 == 1
    ensures NoDivisorBelow(n, 3)
  {}

  lemma PlannedAppend(s: seq<nat>, p: nat)
    requires Planned(s) && Prime(p) && p % 2 == 1
    ensures Planned(s + [p])
  {}

  lemma RootMonotone(a: nat, b: nat)
    requires a <= b
    ensures ISqrt(a) <= ISqrt(b)
  {
    RootOrder(ISqrt(a), ISqrt(b), a, b);
  }

  lemma RootOrder(s: nat, t: nat, a: nat, b: nat)
    requires s * s <= a <= b < (t + 1) * (t + 1)
    ensures s <= t
  {
    if s > t {
      Factorize.Monotone(s, s, t + 1);
    }
  }

  lemma NextOdd(n: nat, d: nat)
    requires n % 2 == 1 && d % 2 == 1 && NoDivisorBelow(n, d) && n % d != 0
    ensures NoDivisorBelow(n, d + 2)
  {
    OddHasNoEvenDivisor(n, d + 1);
  }

  /** The inner loop, which divides by one prime as often as it goes. */
  method DivideOut(start: seq<nat>, from: nat, divisor: nat, n: nat, ghost whole: seq<nat>)
    returns (ok: bool, fct: seq<nat>, length: nat)
    requires OddUnderWay(start, from, divisor, divisor, n, whole)
    requires from > divisor && divisor >= 3 && divisor % 2 == 1 && Prime(divisor)
    ensures ok ==> length <= from && OddUnderWay(fct, length, divisor + 1, divisor + 1, n, whole)
    ensures !ok ==> n >= 2 * Pow3(NFCT - 1) && !Stored(whole)
  {
    fct, length := start, from;
    Relaxed(fct, length, divisor, n, whole);
    hide *;
    while length % divisor == 0
      invariant 0 < length <= from && OddUnderWay(fct, length, divisor, divisor + 1, n, whole)
      invariant length < from ==> EndsWith(fct, divisor)
      decreases length
    {
      DivideStep(fct, length, divisor, n, whole);
      if |fct| >= NFCT {
        return false, fct, length;
      }
      EndsNow(fct, divisor);
      fct := fct + [divisor];
      length := length / divisor;
    }
    DividedOut(fct, length, divisor, n, whole);
    ok := true;
  }

  predicate EndsWith(f: seq<nat>, d: nat) { f != [] && f[|f| - 1] == d }

  lemma EndsNow(f: seq<nat>, d: nat)
    ensures EndsWith(f + [d], d)
  {}

  lemma Relaxed(fct: seq<nat>, length: nat, d: nat, n: nat, whole: seq<nat>)
    requires OddUnderWay(fct, length, d, d, n, whole)
    ensures length > 0 && OddUnderWay(fct, length, d, d + 1, n, whole)
  {
    hide Product, PrimesOf, Planned, EvensFirst, NoDivisorBelow;
  }

  lemma DividedOut(fct: seq<nat>, length: nat, d: nat, n: nat, whole: seq<nat>)
    requires OddUnderWay(fct, length, d, d + 1, n, whole) && d > 0 && length % d != 0
    ensures OddUnderWay(fct, length, d + 1, d + 1, n, whole)
  {
    hide Product, PrimesOf, Planned, EvensFirst;
  }

  lemma DivideStep(fct: seq<nat>, length: nat, d: nat, n: nat, whole: seq<nat>)
    requires OddUnderWay(fct, length, d, d + 1, n, whole) && d >= 3 && d % 2 == 1 && Prime(d) && length % d == 0
    ensures 0 < length / d < length
    ensures |fct| < NFCT ==> OddUnderWay(fct + [d], length / d, d, d + 1, n, whole)
    ensures |fct| >= NFCT ==> n >= 2 * Pow3(NFCT - 1)
    ensures |fct| >= NFCT && (length == d ==> EndsWith(fct, d)) ==> !Stored(whole)
  {
    hide *;
    UnderWayParts(fct, length, d, d + 1, n, whole);
    AtMost(length, d);
    PrimesStep(length, d);
    QuotientKeepsNoDivisor(length, d, d);
    OddQuotient(length, d);
    ProductAppend(fct, d);
    Regroup3(Product(fct), d, length / d);
    assert length == d * (length / d);
    PlannedAppend(fct, d);
    EvensFirstAppend(fct, d);
    assert fct + ([d] + PrimesOf(length / d)) == fct + [d] + PrimesOf(length / d);
    if |fct| >= NFCT {
      TooLong(fct, length, n);
      if length == d ==> EndsWith(fct, d) { NoRoom(fct, length, d, whole); }
    } else {
      OneMoreOdd(fct, d);
      UnderWay(fct + [d], length / d, d, d + 1, n, whole);
    }
  }

  lemma UnderWayParts(fct: seq<nat>, length: nat, d: nat, e: nat, n: nat, whole: seq<nat>)
    requires OddUnderWay(fct, length, d, e, n, whole)
    ensures length > 0 && length % 2 == 1 && Planned(fct) && EvensFirst(fct) && Product(fct) * length == n
    ensures NoDivisorBelow(length, d) && |fct| <= NFCT && fct + PrimesOf(length) == whole && SmallOdds(fct, e)
  {
    hide Product, PrimesOf, Planned, EvensFirst, NoDivisorBelow, SmallOdds;
  }

  lemma UnderWay(fct: seq<nat>, length: nat, d: nat, e: nat, n: nat, whole: seq<nat>)
    requires length > 0 && length % 2 == 1 && Planned(fct) && EvensFirst(fct) && Product(fct) * length == n
    requires NoDivisorBelow(length, d) && |fct| <= NFCT && fct + PrimesOf(length) == whole && SmallOdds(fct, e)
    ensures OddUnderWay(fct, length, d, e, n, whole)
  {
    hide Product, PrimesOf, Planned, EvensFirst, NoDivisorBelow, SmallOdds;
  }

  lemma OneMoreOdd(fct: seq<nat>, d: nat)
    requires d > 1 && SmallOdds(fct, d + 1)
    ensures SmallOdds(fct + [d], d + 1)
  {}

  lemma AtMost(n: nat, d: nat)
    requires n > 0 && d > 0 && n % d == 0
    ensures d <= n
  {}

  /** With a full array and a factor to be divided out, the list is too long. */
  lemma NoRoom(f: seq<nat>, length: nat, d: nat, whole: seq<nat>)
    requires |f| == NFCT && 1 < d <= length && length % d == 0 && length / d > 0
    requires f + PrimesOf(length) == whole && PrimesOf(length) == [d] + PrimesOf(length / d)
    requires length == d ==> EndsWith(f, d)
    ensures !Stored(whole)
  {
    if length / d > 1 {
      assert |PrimesOf(length / d)| > 0;
    } else {
      assert length == d * (length / d);
    }
    hide PrimesOf;
  }

  lemma OddQuotient(n: nat, d: nat)
    requires d > 1 && n > 0 && n % d == 0 && n % 2 == 1
    ensures 0 < n / d < n && (n / d) % 2 == 1
  {
    var q := n / d;
    assert n == d * q;
    assert q > 0;
    ProductStep(q, 1, d);
    assert q * d == d * q;
    if q % 2 == 0 {
      DividesIfMultiple(n, q, d);
      OddHasNoEvenDivisor(n, q);
    }
  }

  // ---------- the arena of twiddle factors ----------

  function L2(fct: seq<nat>, k: nat): nat
    requires k < |fct|
  {
    Prod(L1(fct, k), fct[k])
  }

  /** The inner dimension of pass `k`. */
  function Ido(n: nat, fct: seq<nat>, k: nat): nat
    requires k < |fct|
  {
    if L2(fct, k) == 0 then 0 else n / L2(fct, k)
  }

  lemma {:induction false} ProductSplit(fct: seq<nat>, k: nat)
    requires k <= |fct|
    ensures Product(fct) == Prod(Product(fct[..k]), Product(fct[k..]))
    decreases |fct|
  {
    if k == |fct| {
      assert fct[..k] == fct;
    } else {
      var t, y := fct[..|fct| - 1], fct[|fct| - 1];
      ProductSplit(t, k);
      assert t[..k] == fct[..k] && fct[k..] == t[k..] + [y];
      ProductAppend(t[k..], y);
      Regroup3(Product(fct[..k]), Product(t[k..]), y);
      assert Product(fct[..k]) * Product(t[k..]) * y == Product(fct[..k]) * (Product(t[k..]) * y);
    }
  }

  lemma PlannedPositive(fct: seq<nat>)
    requires Planned(fct)
    ensures forall i :: 0 <= i < |fct| ==> fct[i] > 0
  {}

  /** `l1 * ip * ido` is the whole length at every pass. */
  lemma PassSizes(n: nat, fct: seq<nat>, k: nat)
    requires Product(fct) == n && Planned(fct) && k < |fct|
    ensures L1(fct, k) > 0 && fct[k] > 0 && Ido(n, fct, k) > 0
    ensures Times3(L1(fct, k), fct[k], Ido(n, fct, k)) == n
    ensures L1(fct, k + 1) == L2(fct, k)
    ensures Ido(n, fct, k) == Product(fct[k + 1..])
  {
    PlannedPositive(fct);
    assert fct[..k + 1] == fct[..k] + [fct[k]];
    ProductAppend(fct[..k], fct[k]);
    ProductSplit(fct, k + 1);
    var l2, rest := L2(fct, k), Product(fct[k + 1..]);
    assert n == l2 * rest && l2 > 0;
    ModUnique(n, l2, rest, 0);
    assert Times3(L1(fct, k), fct[k], rest) == Prod(L1(fct, k), fct[k]) * rest;
  }

  /** The twiddles of pass `k`, without and with the table of the generic pass. */
  function TwLength(n: nat, fct: seq<nat>, k: nat): nat
    requires k < |fct|
  {
    if fct[k] == 0 || Ido(n, fct, k) == 0 then 0 else Prod(fct[k] - 1, Ido(n, fct, k) - 1)
  }

  function TwsLength(fct: seq<nat>, k: nat): nat
    requires k < |fct|
  {
    if fct[k] > 11 then fct[k] else 0
  }

  /** Where the twiddles of pass `k` start: the sizes of all regions before it. */
  function TwOffset(n: nat, fct: seq<nat>, k: nat): nat
    requires k <= |fct|
  {
    if k == 0 then 0 else TwOffset(n, fct, k - 1) + TwLength(n, fct, k - 1) + TwsLength(fct, k - 1)
  }

  /** cfftp_twsize. */
  method TwSize(n: nat, fct: seq<nat>) returns (twsize: nat)
    requires Product(fct) == n && Planned(fct)
    ensures twsize == TwOffset(n, fct, |fct|)
  {
    hide Product, Planned, Prod;
    twsize := 0;
    var l1 := 1;
    assert fct[..0] == [] && L1(fct, 0) == 1 by { EmptyProduct(fct); }
    for k := 0 to |fct|
      invariant l1 == L1(fct, k) && twsize == TwOffset(n, fct, k)
    {
      PassSizes(n, fct, k);
      var ip := fct[k];
      ProdIs(l1, ip);
      var ido := n / (l1 * ip);
      ProdIs(ip - 1, ido - 1);
      twsize := twsize + (ip - 1) * (ido - 1);
      if ip > 11 {
        twsize := twsize + ip;
      }
      l1 := l1 * ip;
    }
  }

  lemma ProdIs(a: nat, b: nat)
    ensures Prod(a, b) == a * b
    ensures a > 0 && b > 0 ==> Prod(a, b) > 0
  {}

  lemma EmptyProduct(fct: seq<nat>)
    ensures L1(fct, 0) == 1
  {}

  /** The part of the arena that holds pass `k`'s twiddles, and that of its generic table. */
  function TwPart(mem: seq<Complex>, n: nat, fct: seq<nat>, k: nat): seq<Complex>
    requires k < |fct|
  {
    var a := TwOffset(n, fct, k);
    if a + TwLength(n, fct, k) <= |mem| then mem[a..a + TwLength(n, fct, k)] else []
  }

  function TwsPart(mem: seq<Complex>, n: nat, fct: seq<nat>, k: nat): seq<Complex>
    requires k < |fct|
  {
    var a := TwOffset(n, fct, k) + TwLength(n, fct, k);
    if a + TwsLength(fct, k) <= |mem| then mem[a..a + TwsLength(fct, k)] else []
  }

  ghost predicate PassTable(mem: seq<Complex>, n: nat, fct: seq<nat>, w: Complex, k: nat)
    requires k < |fct|
  {
    var ip, l1, ido := fct[k], L1(fct, k), Ido(n, fct, k);
    && TwOffset(n, fct, k + 1) <= |mem|
    && Twiddles(TwPart(mem, n, fct, k), w, ido, ip, l1)
    && (ip > 11 ==> forall m: nat :: m < ip ==> At(TwsPart(mem, n, fct, k), m) == Pow(Pow(w, Prod(l1, ido)), m))
  }

  /** Writing behind a pass's regions leaves its tables alone: the regions do not overlap. */
  lemma PassTableKept(mem: seq<Complex>, mem': seq<Complex>, n: nat, fct: seq<nat>, w: Complex, k: nat)
    requires k < |fct| && PassTable(mem, n, fct, w, k) && |mem| == |mem'|
    requires mem[..TwOffset(n, fct, k + 1)] == mem'[..TwOffset(n, fct, k + 1)]
    ensures PassTable(mem', n, fct, w, k)
  {
    var e := TwOffset(n, fct, k + 1);
    assert TwPart(mem, n, fct, k) == TwPart(mem[..e], n, fct, k) == TwPart(mem', n, fct, k);
    assert TwsPart(mem, n, fct, k) == TwsPart(mem[..e], n, fct, k) == TwsPart(mem', n, fct, k);
  }

  lemma TwiddleInside(ido: nat, ip: nat, i: nat, j: nat)
    requires 0 < i < ido && 0 < j < ip
    ensures TwiddleIndex(ido, i, j) == Idx(i - 1, ido - 1, j - 1) < Prod(ip - 1, ido - 1)
  {
    IdxBound(i - 1, ido - 1, j - 1, ip - 1);
  }

  /** The trig table `twid` is read inside its `l1 * ip * ido` entries. */
  lemma TrigIndex(l1: nat, ip: nat, ido: nat, i: nat, j: nat)
    requires i <= ido && j < ip && l1 > 0 && ido > 0
    ensures Times3(l1, i, j) == j * l1 * i < Times3(l1, ip, ido)
  {
    var a, b := l1 * i, l1 * ido;
    MulMonotone(l1, i, ido);
    MulMonotone(j, a, b);
    ProductStep(b, j, ip);
    TrigIndexProducts(l1, ip, ido, i, j);
    AtLeastOneTimes(l1, ido);
    hide Times3;
  }

  lemma TrigIndexProducts(l1: nat, ip: nat, ido: nat, i: nat, j: nat)
    ensures Times3(l1, i, j) == j * l1 * i == j * (l1 * i)
    ensures Times3(l1, ip, ido) == (l1 * ido) * ip
    ensures j * (l1 * ido) == (l1 * ido) * j
  {}

  /** What the twiddle loops have written of a region that starts at `ofs`. */
  ghost predicate TwWritten(mem: seq<Complex>, ofs: nat, w: Complex, ido: nat, ip: nat, l1: nat, j: nat, i: nat) {
    forall i': nat, j': nat :: 0 < i' < ido && 0 < j' < ip && (j' < j || (j' == j && i' < i)) ==>
      At(mem, ofs + TwiddleIndex(ido, i', j')) == Pow(w, Times3(l1, i', j'))
  }

  lemma TwWrittenStep(mem: seq<Complex>, ofs: nat, w: Complex, ido: nat, ip: nat, l1: nat, j: nat, i: nat, v: Complex)
    requires 0 < i < ido && 0 < j < ip && ofs + Prod(ip - 1, ido - 1) <= |mem|
    requires TwWritten(mem, ofs, w, ido, ip, l1, j, i) && v == Pow(w, Times3(l1, i, j))
    ensures ofs + TwiddleIndex(ido, i, j) < |mem|
    ensures TwWritten(mem[ofs + TwiddleIndex(ido, i, j) := v], ofs, w, ido, ip, l1, j, i + 1)
  {
    hide TwiddleIndex, Idx, Prod, Pow, Times3;
    TwiddleInside(ido, ip, i, j);
    var mem' := mem[ofs + TwiddleIndex(ido, i, j) := v];
    forall i': nat, j': nat | 0 < i' < ido && 0 < j' < ip && (j' < j || (j' == j && i' < i + 1))
      ensures At(mem', ofs + TwiddleIndex(ido, i', j')) == Pow(w, Times3(l1, i', j'))
    {
      TwiddleInside(ido, ip, i', j');
      if TwiddleIndex(ido, i', j') == TwiddleIndex(ido, i, j) {
        IdxInjective(i' - 1, ido - 1, j' - 1, i - 1, j - 1);
      }
    }
  }

  method FillTwiddles(mem: array<Complex>, ofs: nat, twid: seq<Complex>, ido: nat, ip: nat, l1: nat, ghost w: Complex)
    requires ip > 0 && ido > 0 && l1 > 0 && ofs + Prod(ip - 1, ido - 1) <= mem.Length
    requires |twid| == Times3(l1, ip, ido) && forall m: nat :: m < |twid| ==> At(twid, m) == Pow(w, m)
    modifies mem
    ensures Twiddles(mem[ofs..ofs + Prod(ip - 1, ido - 1)], w, ido, ip, l1)
    ensures mem[..ofs] == old(mem[..ofs])
  {
    hide TwiddleIndex, Idx, Prod, Pow, Times3;
    ghost var low := mem[..ofs];
    for j := 1 to ip
      invariant mem[..ofs] == low
      invariant TwWritten(mem[..], ofs, w, ido, ip, l1, j, 1)
    {
      for i := 1 to ido
        invariant mem[..ofs] == low
        invariant TwWritten(mem[..], ofs, w, ido, ip, l1, j, i)
      {
        TrigIndex(l1, ip, ido, i, j);
        assert At(twid, j * l1 * i) == Pow(w, Times3(l1, i, j));
        TwWrittenStep(mem[..], ofs, w, ido, ip, l1, j, i, twid[j * l1 * i]);
        ghost var was := mem[..];
        mem[ofs + TwiddleIndex(ido, i, j)] := twid[j * l1 * i];
        assert mem[..] == was[ofs + TwiddleIndex(ido, i, j) := twid[j * l1 * i]];
      }
    }
    var part := mem[ofs..ofs + Prod(ip - 1, ido - 1)];
    forall i: nat, j: nat | 0 < i < ido && 0 < j < ip
      ensures At(part, TwiddleIndex(ido, i, j)) == Pow(w, Times3(l1, i, j))
    {
      TwiddleInside(ido, ip, i, j);
      assert At(mem[..], ofs + TwiddleIndex(ido, i, j)) == Pow(w, Times3(l1, i, j));
    }
  }

  /** The table a generic pass needs on top of the twiddles. */
  method FillRoots(mem: array<Complex>, ofs: nat, twid: seq<Complex>, ido: nat, ip: nat, l1: nat, ghost w: Complex)
    requires ip > 0 && ido > 0 && l1 > 0 && ofs + ip <= mem.Length
    requires |twid| == Times3(l1, ip, ido) && forall m: nat :: m < |twid| ==> At(twid, m) == Pow(w, m)
    modifies mem
    ensures forall m: nat :: m < ip ==> At(mem[ofs..ofs + ip], m) == Pow(Pow(w, Prod(l1, ido)), m)
    ensures mem[..ofs] == old(mem[..ofs])
  {
    hide Prod, Pow, Times3;
    ghost var low, r := mem[..ofs], Pow(w, Prod(l1, ido));
    for j := 0 to ip
      invariant mem[..ofs] == low
      invariant forall m: nat :: m < j ==> At(mem[..], ofs + m) == Pow(r, m)
    {
      TrigIndex(l1, ip, ido, ido, j);
      RootExponent(w, l1, ido, j);
      mem[ofs + j] := twid[j * l1 * ido];
    }
  }

  lemma Exponent3(l1: nat, ido: nat, j: nat)
    ensures j * l1 * ido == Prod(l1, ido) * j >= 0
  {}

  lemma RootExponent(w: Complex, l1: nat, ido: nat, j: nat)
    ensures j * l1 * ido >= 0 && Pow(w, j * l1 * ido) == Pow(Pow(w, Prod(l1, ido)), j)
  {
    hide Pow, Prod;
    Exponent3(l1, ido, j);
    PowMul(w, Prod(l1, ido), j);
  }

  /** The regions of one pass. */
  method FillPass(n: nat, fct: seq<nat>, k: nat, l1: nat, ido: nat, twid: seq<Complex>, mem: array<Complex>,
                  ghost w: Complex)
    requires k < |fct| && fct[k] > 0 && l1 == L1(fct, k) > 0 && ido == Ido(n, fct, k) > 0
    requires twid == TrigTable(w, n) && n == Times3(l1, fct[k], ido)
    requires TwOffset(n, fct, k + 1) <= mem.Length
    modifies mem
    ensures PassTable(mem[..], n, fct, w, k)
    ensures mem[..TwOffset(n, fct, k)] == old(mem[..TwOffset(n, fct, k)])
  {
    hide Product, Prod, Pow, Times3, Twiddles, L1, Ido;
    TrigTableAt(w, n);
    var ip, tw := fct[k], TwOffset(n, fct, k);
    ghost var was := mem[..];
    FillTwiddles(mem, tw, twid, ido, ip, l1, w);
    var tws := tw + Prod(ip - 1, ido - 1);
    if ip > 11 {
      ghost var mid := mem[..];
      FillRoots(mem, tws, twid, ido, ip, l1, w);
      PrefixOfEqual(mem[..], mid, tw, tws);
      SliceOfEqual(mem[..], mid, tw, tws);
    }
  }

  lemma SliceOfEqual(a: seq<Complex>, b: seq<Complex>, s: nat, t: nat)
    requires s <= t <= |a| == |b| && a[..t] == b[..t]
    ensures a[s..t] == b[s..t]
  {
    assert a[s..t] == a[..t][s..] && b[s..t] == b[..t][s..];
  }

  /** cfftp_comp_twiddle: every pass finds its factors in its own part of the arena. */
  method CompTwiddle(n: nat, fct: seq<nat>, twid: seq<Complex>, mem: array<Complex>, ghost w: Complex)
    requires Product(fct) == n && Planned(fct) && twid == TrigTable(w, n)
    requires mem.Length == TwOffset(n, fct, |fct|)
    modifies mem
    ensures forall k :: 0 <= k < |fct| ==> PassTable(mem[..], n, fct, w, k)
  {
    hide Product, Planned, Prod, Pow, Times3, Twiddles, TrigTable, PassTable, TwOffset, Ido;
    var l1 := 1;
    EmptyProduct(fct);
    for k := 0 to |fct|
      invariant l1 == L1(fct, k)
      invariant forall q :: 0 <= q < k ==> PassTable(mem[..], n, fct, w, q)
    {
      PassSizes(n, fct, k);
      OffsetMonotone(n, fct, k + 1);
      OffsetMonotone(n, fct, k);
      var ip := fct[k];
      ProdIs(l1, ip);
      IdoIs(n, fct, k);
      var ido := n / (l1 * ip);
      ghost var was, tw := mem[..], TwOffset(n, fct, k);
      FillPass(n, fct, k, l1, ido, twid, mem, w);
      assert mem[..tw] == mem[..][..tw] && was[..tw] == mem[..tw];
      forall q | 0 <= q < k
        ensures PassTable(mem[..], n, fct, w, q)
      {
        OffsetOrder(n, fct, q + 1, k);
        PrefixOfEqual(mem[..], was, TwOffset(n, fct, q + 1), tw);
        PassTableKept(was, mem[..], n, fct, w, q);
      }
      l1 := l1 * ip;
    }
  }

  lemma IdoIs(n: nat, fct: seq<nat>, k: nat)
    requires k < |fct| && L2(fct, k) > 0
    ensures Ido(n, fct, k) == n / L2(fct, k)
  {}

  lemma PrefixOfEqual(a: seq<Complex>, b: seq<Complex>, m: nat, t: nat)
    requires m <= t <= |a| == |b| && a[..t] == b[..t]
    ensures a[..m] == b[..m]
  {
    assert a[..m] == a[..t][..m] && b[..m] == b[..t][..m];
  }

  lemma {:induction false} OffsetOrder(n: nat, fct: seq<nat>, a: nat, b: nat)
    requires a <= b <= |fct|
    ensures TwOffset(n, fct, a) <= TwOffset(n, fct, b)
    decreases b
  {
    if a < b { OffsetOrder(n, fct, a, b - 1); }
  }

  lemma OffsetMonotone(n: nat, fct: seq<nat>, k: nat)
    requires k <= |fct|
    ensures TwOffset(n, fct, k) <= TwOffset(n, fct, |fct|)
  {
    OffsetOrder(n, fct, k, |fct|);
  }
}
