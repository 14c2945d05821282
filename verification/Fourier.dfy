/** The choice between the two kinds of plan, and the words cfft and icfft on top of it. */
module Fourier {
  import opened Wrappers
  import opened Complexes
  import opened Dft
  import opened Primes
  import opened Division
  import opened Factorize
  import opened Plans
  import opened PassAll
  import opened Bluestein
  import opened SinCos

  // ---------- largest_prime_factor ----------

  /** Every prime factor of `n` is at most `res` or still divides `left`. */
  ghost predicate Accounted(n: nat, left: nat, res: nat) {
    forall p: nat :: Prime(p) && n % p == 0 ==> p <= res || left % p == 0
  }

  ghost predicate FactorOrOne(n: nat, res: nat) { res == 1 || (Prime(res) && n % res == 0) }

  lemma ProductRemainder(p: nat, a: nat, b: nat)
    requires p > 0
    ensures (a * b) % p == ((a % p) * (b % p)) % p
  {
    var qa, ra, qb, rb := a / p, a % p, b / p, b % p;
    var s, t := (ra * rb) / p, (ra * rb) % p;
    assert a == p * qa + ra && b == p * qb + rb && ra * rb == p * s + t;
    Expand(p, qa, ra, qb, rb, b);
    var k := qa * b + ra * qb;
    assert p * (k + s) == p * k + p * s;
    ModUnique(a * b, p, k + s, t);
  }

  /** A prime that divides a product divides one of its factors. */
  lemma EuclidAny(p: nat, a: nat, b: nat)
    requires Prime(p) && (a * b) % p == 0
    ensures a % p == 0 || b % p == 0
  {
    ProductRemainder(p, a, b);
    if a % p != 0 && b % p != 0 {
      NoSmallProduct(p, a % p, b % p);
    }
  }

  lemma Expand(p: int, qa: int, ra: int, qb: int, rb: int, b: int)
    requires b == p * qb + rb
    ensures (p * qa + ra) * b == p * (qa * b + ra * qb) + ra * rb
  {
    assert (p * qa + ra) * b == p * (qa * b) + ra * b;
    assert ra * b == ra * (p * qb) + ra * rb;
    assert ra * (p * qb) == p * (ra * qb);
  }

  lemma DivideKeepsAccount(n: nat, left: nat, x: nat, res: nat)
    requires Prime(x) && left > 0 && left % x == 0 && n > 0 && n % left == 0 && x >= res
    requires Accounted(n, left, res)
    ensures left / x > 0 && n % (left / x) == 0 && n % x == 0
    ensures Accounted(n, left / x, x)
  {
    var rest := left / x;
    DivideFacts(n, left, x);
    forall p: nat | Prime(p) && n % p == 0
      ensures p <= x || rest % p == 0
    {
      if left % p == 0 {
        EuclidAny(p, x, rest);
        NotAMultiple(x, p);
      }
    }
  }

  lemma NotAMultiple(x: nat, p: nat)
    requires 0 < x && 0 < p
    ensures x % p == 0 ==> p <= x
  {}

  lemma DivideFacts(n: nat, left: nat, x: nat)
    requires x > 0 && left > 0 && left % x == 0 && n > 0 && n % left == 0
    ensures left / x > 0 && left == x * (left / x) && n % (left / x) == 0 && n % x == 0
  {
    assert left == x * (left / x);
    DividesIfMultiple(left, left / x, x);
    DividesTransitive(left / x, left, n);
    DividesTransitive(x, left, n);
  }

  lemma OddsOnly(n: nat)
    requires n % 2 == 1
    ensures NoDivisorBelow(n, 3)
  {}

  method LargestPrimeFactor(n: nat) returns (res: nat)
    requires n > 0
    ensures n == 1 ==> res == 1
    ensures n > 1 ==> Prime(res) && n % res == 0
    ensures forall p: nat :: Prime(p) && n % p == 0 ==> p <= res
  {
    hide Prime, ISqrt, NoDivisorBelow, Accounted, FactorOrOne;
    res := 1;
    var left := n;
    StartAccount(n);
    while left % 2 == 0
      invariant left > 0 && n % left == 0 && res <= 2
      invariant Accounted(n, left, res) && FactorOrOne(n, res)
      decreases left
    {
      TwoIsPrime();
      DivideKeepsAccount(n, left, 2, res);
      res := 2;
      left := left / 2;
      NewFactor(n, 2);
    }
    var limit := ISqrt(left);
    var x := 3;
    OddsOnly(left);
    while x <= limit
      invariant x % 2 == 1 && x >= 3 && left > 0 && left % 2 == 1 && n % left == 0 && res < x
      invariant limit == ISqrt(left) && NoDivisorBelow(left, x)
      invariant Accounted(n, left, res) && FactorOrOne(n, res)
      decreases limit as int + left - x
    {
      ghost var before := left;
      while left % x == 0
        invariant left > 0 && left % 2 == 1 && n % left == 0 && res <= x && left <= before
        invariant limit == ISqrt(left) && NoDivisorBelow(left, x)
        invariant Accounted(n, left, res) && FactorOrOne(n, res)
        decreases left
      {
        LeastDivisorIsPrime(left, x);
        DivideKeepsAccount(n, left, x, res);
        QuotientKeepsNoDivisor(left, x, x);
        OddQuotient(left, x);
        NewFactor(n, x);
        res := x;
        left := left / x;
        limit := ISqrt(left);
      }
      RootMonotone(left, before);
      NextOdd(left, x);
      x := x + 2;
    }
    if left > 1 {
      PrimeByTrial(left, x);
      NewFactor(n, left);
      LeftIsLarge(left, x);
      WholeAccount(n, left, res);
      res := left;
    } else {
      EmptyAccount(n, left, res);
    }
  }

  lemma StartAccount(n: nat)
    requires n > 0
    ensures n % n == 0 && Accounted(n, n, 1) && FactorOrOne(n, 1)
  {}

  lemma TwoIsPrime()
    ensures Prime(2)
  {}

  lemma NewFactor(n: nat, p: nat)
    requires Prime(p) && n % p == 0
    ensures FactorOrOne(n, p)
  {}

  lemma LeftIsLarge(left: nat, x: nat)
    requires left > 1 && NoDivisorBelow(left, x)
    ensures left >= x
  {
    assert left % left == 0;
  }

  lemma WholeAccount(n: nat, left: nat, res: nat)
    requires left > 0 && Accounted(n, left, res) && res <= left
    ensures forall p: nat :: Prime(p) && n % p == 0 ==> p <= left
  {
    forall p: nat | Prime(p) && n % p == 0
      ensures p <= left
    {
      NotAMultiple(left, p);
    }
  }

  lemma EmptyAccount(n: nat, left: nat, res: nat)
    requires left == 1 && n > 0 && Accounted(n, left, res) && FactorOrOne(n, res)
    ensures n == 1 ==> res == 1
    ensures n > 1 ==> Prime(res) && n % res == 0
    ensures forall p: nat :: Prime(p) && n % p == 0 ==> p <= res
  {
    forall p: nat | Prime(p) && n % p == 0
      ensures p <= res
    {
      assert 1 % p == 1;
    }
    if n > 1 && res == 1 {
      var p := SomePrimeFactor(n, n);
    }
  }

  lemma {:induction false} SomePrimeFactor(n: nat, d: nat) returns (p: nat)
    requires d > 1 && n > 0 && n % d == 0
    ensures Prime(p) && n % p == 0
    decreases d
  {
    if Prime(d) {
      p := d;
    } else {
      var e: nat :| 1 < e < d && d % e == 0;
      DividesTransitive(e, d, n);
      p := SomePrimeFactor(n, e);
    }
  }

  // ---------- plans of either kind ----------

  datatype CfftPlan = Packed(pack: Plan) | Blue(blue: BluePlan) {
    function Length(): nat { if Packed? then pack.length else blue.n }
  }

  ghost predicate ValidCfft(plan: CfftPlan, root: nat -> Complex) {
    match plan
    case Packed(pack) => ValidPlan(pack, root(pack.length))
    case Blue(blue) => ValidBlue(blue, root)
  }

  /** make_cfft_plan. `cost` stands for cost_guess: any cost function gives a correct plan. */
  method MakeCfft(length: nat, cost: nat -> real, turn: real -> Complex) returns (plan: Option<CfftPlan>)
    requires Circle(turn)
    ensures plan.Some? ==> length > 0 && plan.value.Length() == length && ValidCfft(plan.value, Root(turn))
    ensures 0 < length < Pow3(NFCT - 1) / 2 ==> plan.Some?
  {
    hide Circle, Root, ValidPlan, ValidBlue, Pow3, Prime;
    if length == 0 {
      return None;
    }
    var usePacked := length < 50;
    if !usePacked {
      var lpf := LargestPrimeFactor(length);
      usePacked := lpf * lpf <= length;
    }
    if !usePacked {
      var padded := GoodSize.Compute(2 * length - 1);
      var comp1, comp2 := cost(length), 2.0 * cost(padded);
      comp2 := comp2 * 1.5;
      usePacked := !(comp2 < comp1);
    }
    if usePacked {
      var pack := MakePlan(length, turn);
      if pack.None? {
        return None;
      }
      plan := Some(Packed(pack.value));
    } else {
      var blue := MakeBlue(length, turn);
      if blue.None? {
        return None;
      }
      plan := Some(Blue(blue.value));
    }
  }

  /** cfft_forward (sign -1) and cfft_backward (sign 1). */
  method Execute(plan: CfftPlan, c: array<Complex>, fct: real, sign: int, root: nat -> Complex)
    requires RootFamily(root) && ValidCfft(plan, root) && c.Length == plan.Length()
    requires sign == 1 || sign == -1
    requires plan.Length() > 1 || fct == 1.0
    modifies c
    ensures c[..] == Scaled(fct, Transform(old(c[..]), Signed(root(plan.Length()), sign)))
  {
    hide RootFamily, ValidPlan, ValidBlue, Transform, Signed, Scale;
    match plan {
      case Packed(pack) =>
        ghost var t := Transform(c[..], Signed(root(pack.length), sign));
        SomeLength(pack, root(pack.length));
        ScaledByOne(t);
        PassAll.PassAll(pack, c, fct, sign, root);
      case Blue(blue) =>
        SomeBlueLength(blue, root);
        BlueFft(blue, c, sign, fct, root);
    }
  }

  lemma SomeLength(plan: Plan, w: Complex)
    requires ValidPlan(plan, w)
    ensures plan.length > 0
  {}

  lemma SomeBlueLength(bp: BluePlan, root: nat -> Complex)
    requires ValidBlue(bp, root)
    ensures bp.n > 0
  {}

  // ---------- the words cfft and icfft ----------

  /** The n x 2 matrix that cfft is promised to leave for input `x`. */
  function Spectrum(x: seq<Complex>, root: nat -> Complex): seq<Complex> {
    Transform(x, Conj(root(|x|)))
  }

  /** The n x 2 matrix that icfft is promised to leave. */
  function Signal(y: seq<Complex>, root: nat -> Complex): seq<Complex> {
    Scaled(if |y| > 0 then 1.0 / |y| as real else 1.0, Transform(y, root(|y|)))
  }

  /** complex_transform: p_cfft runs it forward, p_icfft backward. */
  method ComplexTransform(x: seq<Complex>, forward: bool, cost: nat -> real, turn: real -> Complex)
    returns (r: Option<seq<Complex>>)
    requires Circle(turn)
    ensures |x| < 1 ==> r.None?
    ensures 0 < |x| < Pow3(NFCT - 1) / 2 ==> r.Some?
    ensures r.Some? ==> r.value == if forward then Spectrum(x, Root(turn)) else Signal(x, Root(turn))
  {
    var root := Root(turn);
    CircleIsRootFamily(turn);
    hide Circle, Root, RootFamily, ValidCfft, Transform, Scale, Pow3, Conj, TrigTable, SinCos.Entry;
    if |x| < 1 {
      return None;
    }
    var n := |x|;
    var interleaved := new Complex[n](i requires 0 <= i < n => x[i]);
    assert interleaved[..] == x;
    var plan := MakeCfft(n, cost, turn);
    if plan.None? {
      return None;
    }
    if forward {
      ScaledByOne(Transform(x, Conj(root(n))));
      Execute(plan.value, interleaved, 1.0, -1, root);
    } else {
      Execute(plan.value, interleaved, 1.0 / n as real, 1, root);
    }
    r := Some(interleaved[..]);
  }

  /** icfft undoes cfft, and cfft undoes icfft, on every complex vector. */
  lemma RoundTrip(x: seq<Complex>, root: nat -> Complex)
    requires RootFamily(root) && |x| > 0
    ensures Signal(Spectrum(x, root), root) == x
    ensures Spectrum(Signal(x, root), root) == x
  {
    var n, w := |x|, root(|x|);
    RootIs(root, n);
    ConjRoot(w, n);
    ConjTwice(w);
    hide RootFamily, UnitRoot, PrincipalRoot, DftAt, Scale, Conj;
    Inversion(x, Conj(w));
    Inversion(x, w);
    TransformScaled(1.0 / n as real, Transform(x, w), Conj(w));
    forall i | 0 <= i < n
      ensures Scale(1.0 / n as real, Scale(n as real, x[i])) == x[i]
    {
      LengthInverse(n, x[i]);
    }
  }

  lemma LengthInverse(n: nat, d: Complex)
    requires n > 0
    ensures Scale(1.0 / n as real, Scale(n as real, d)) == d
  {
    ScaleTwice(1.0 / n as real, n as real, d);
    assert 1.0 / n as real * n as real == 1.0;
  }

  /** cfft, then icfft on what it left: the input comes back. */
  method ThereAndBack(x: seq<Complex>, cost: nat -> real, turn: real -> Complex) returns (r: Option<seq<Complex>>)
    requires Circle(turn)
    ensures r.Some? ==> r.value == x
    ensures 0 < |x| < Pow3(NFCT - 1) / 2 ==> r == Some(x)
  {
    CircleIsRootFamily(turn);
    hide *;
    r := ComplexTransform(x, true, cost, turn);
    if r.Some? {
      SpectrumSize(x, Root(turn));
      RoundTrip(x, Root(turn));
      r := ComplexTransform(r.value, false, cost, turn);
    }
  }

  lemma SpectrumSize(x: seq<Complex>, root: nat -> Complex)
    ensures |Spectrum(x, root)| == |x|
  {}
}
