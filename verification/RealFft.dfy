/** Running the real passes, forward and backward: the packed real transforms. */
module RealFft {
  import opened Basics
  import opened Complexes
  import opened Dft
  import opened RadixPass
  import opened Butterflies
  import opened PassG
  import opened Primes
  import opened Division
  import opened Factorize
  import opened Plans
  import opened PassAll
  import opened RealSpectra
  import opened RealStages
  import opened RealColumns
  import opened RealPasses
  import opened RealPassG
  import opened RealPassGBack
  import opened RealPlans

  // ---------- one pass ----------

  lemma EighthParts(root: nat -> Complex)
    requires RootFamily(root)
    ensures root(8) == Complex(root(8).re, root(8).re)
  {
    assert PrincipalRoot(root(8), 8);
    SmallPowers(root(8));
    hide Mul, Conj, Pow;
    EqualParts(root(8));
  }

  lemma Eighth(root: nat -> Complex, l1: nat, ido: nat)
    requires RootFamily(root) && l1 > 0 && ido > 0 && ido % 2 == 0
    ensures Complex(root(8).re, root(8).re) == Pow(root(Times3(l1, 4, ido)), Prod(l1, ido / 2))
  {
    var h := ido / 2;
    assert Times3(l1, 8, h) == Times3(l1, 4, ido) by {
      assert ido == 2 * h;
      assert l1 * 8 * h == l1 * 4 * (2 * h);
    }
    RootBelow(root, l1, 8, h);
    EighthParts(root);
  }

  lemma AboveFive(p: nat)
    requires p % 2 == 1 && Prime(p) && p != 3 && p != 5
    ensures p > 5
  {
    assert p % 3 == 0 ==> p == 3;
  }

  lemma RadixKind(ip: nat)
    requires Radix(ip) && ip != 2 && ip != 4
    ensures ip % 2 == 1 && Prime(ip) && (ip != 3 && ip != 5 ==> ip > 5)
  {
    if ip != 3 && ip != 5 { AboveFive(ip); }
  }

  /** What the passes are told about the root. */
  lemma PassRoots(root: nat -> Complex, l1: nat, ip: nat, ido: nat)
    requires RootFamily(root) && l1 > 0 && ip > 0 && ido > 0
    ensures PrincipalRoot(root(Times3(l1, ip, ido)), Times3(l1, ip, ido)) &&
            UnitRoot(root(Times3(l1, ip, ido)), Times3(l1, ip, ido))
    ensures Pow(root(Times3(l1, ip, ido)), Prod(l1, ido)) == root(ip)
    ensures ip == 4 && ido % 2 == 0 ==>
              Complex(root(8).re, root(8).re) == Pow(root(Times3(l1, ip, ido)), Prod(l1, ido / 2))
  {
    PositiveSize(l1, ip, ido);
    RootIs(root, Times3(l1, ip, ido));
    RootBelow(root, l1, ip, ido);
    if ip == 4 && ido % 2 == 0 { Eighth(root, l1, ido); }
    hide *;
  }

  /** The chain of comparisons of rfftp_forward; the generic pass leaves its result in `p1`. */
  method OneForward(ido: nat, ip: nat, l1: nat, p1: array<real>, p2: array<real>, wa: seq<real>, roots: seq<Complex>,
                    root: nat -> Complex, ghost w: Complex) returns (swapped: bool)
    requires p1 != p2 && p1.Length == p2.Length == Times3(l1, ip, ido) && Radix(ip) && l1 > 0 && ido > 0 &&
             (ip % 2 == 1 ==> ido % 2 == 1)
    requires RootFamily(root) && w == root(Times3(l1, ip, ido))
    requires TableFactors(wa, w, ido, ip, l1) && (ip > 5 ==> PowerTable(roots, Pow(w, Prod(l1, ido)), ip))
    modifies p1, p2
    ensures swapped ==> IsRealForward(old(p1[..]), p2[..], Conj(w), ido, ip, l1)
    ensures !swapped ==> IsRealForward(old(p1[..]), p1[..], Conj(w), ido, ip, l1)
  {
    hide *;
    AboveOne(ip);
    PassRoots(root, l1, ip, ido);
    swapped := true;
    if ip == 4 {
      RadF4(ido, l1, p1, p2, wa, root(8).re, w);
    } else if ip == 2 {
      RadF2(ido, l1, p1, p2, wa, w);
    } else {
      RadixKind(ip);
      if ip == 3 {
        RadFOdd(ido, l1, 3, root(3), p1, p2, wa, w);
      } else if ip == 5 {
        RadFOdd(ido, l1, 5, root(5), p1, p2, wa, w);
      } else {
        RadFG(ido, ip, l1, p1, p2, wa, roots, w);
        swapped := false;
      }
    }
  }

  /** The chain of comparisons of rfftp_backward. */
  method OneBackward(ido: nat, ip: nat, l1: nat, p1: array<real>, p2: array<real>, wa: seq<real>, roots: seq<Complex>,
                     root: nat -> Complex, ghost w: Complex)
    requires p1 != p2 && p1.Length == p2.Length == Times3(l1, ip, ido) && Radix(ip) && l1 > 0 && ido > 0 &&
             (ip % 2 == 1 ==> ido % 2 == 1)
    requires RootFamily(root) && w == root(Times3(l1, ip, ido))
    requires TableFactors(wa, w, ido, ip, l1) && (ip > 5 ==> PowerTable(roots, Pow(w, Prod(l1, ido)), ip))
    modifies p1, p2
    ensures IsRealBackward(old(p1[..]), p2[..], w, ido, ip, l1)
  {
    hide *;
    AboveOne(ip);
    PassRoots(root, l1, ip, ido);
    if ip == 4 {
      RadB4(ido, l1, p1, p2, wa, root(8).re, w);
    } else if ip == 2 {
      RadB2(ido, l1, p1, p2, wa, w);
    } else {
      RadixKind(ip);
      if ip == 3 {
        RadBOdd(ido, l1, 3, root(3), p1, p2, wa, w);
      } else if ip == 5 {
        RadBOdd(ido, l1, 5, root(5), p1, p2, wa, w);
      } else {
        RadBG(ido, ip, l1, p1, p2, wa, roots, w);
      }
    }
  }

  // ---------- the loops over the factors ----------

  lemma RealPlanParts(plan: RealPlan, w: Complex, k: nat)
    requires ValidRealPlan(plan, w) && k < |plan.fct|
    ensures var ip, l1, ido := plan.fct[k], L1(plan.fct, k), Ido(plan.length, plan.fct, k);
            && Radix(ip) && l1 > 0 && ido > 0 && Times3(l1, ip, ido) == plan.length > 0
            && (ip % 2 == 1 ==> ido % 2 == 1)
            && TableFactors(FactorsPart(plan.mem, plan.length, plan.fct, k), w, ido, ip, l1)
            && (ip > 5 ==> PowerTable(RootsPart(plan.mem, plan.length, plan.fct, k), Pow(w, Prod(l1, ido)), ip))
            && Left(plan.fct, k) == Prod(ip, Left(plan.fct, k + 1)) && Left(plan.fct, k + 1) == ido
            && L1(plan.fct, k + 1) == Prod(l1, ip) && Prod(l1, ip) > 0
  {
    PassSizes(plan.length, plan.fct, k);
    LeftStep(plan.length, plan.fct, k);
    assert RealPassTable(plan.mem, plan.length, plan.fct, w, k);
    if plan.fct[k] % 2 == 1 { OddProduct(plan.fct[k + 1..]); }
    ProdIs(L1(plan.fct, k), plan.fct[k]);
    hide TableFactors, PowerTable, FactorsPart, RootsPart, Pow, Prod, L1, Ido, Left;
  }

  lemma DivideBack(l1: nat, ip: nat, n: nat, ido: nat)
    requires Times3(l1, ip, ido) == n && ip > 0 && Prod(l1, ip) > 0
    ensures n / Prod(l1, ip) == ido && Prod(l1, ip) / ip == l1 && n / (ip * l1) == ido && ip * l1 == Prod(l1, ip)
  {
    ModUnique(n, Prod(l1, ip), ido, 0);
    ModUnique(Prod(l1, ip), ip, l1, 0);
    assert Prod(l1, ip) * ido == n;
  }

  lemma PlanEnds(plan: RealPlan, w: Complex)
    requires ValidRealPlan(plan, w)
    ensures plan.length > 0
    ensures L1(plan.fct, 0) == 1 && Left(plan.fct, 0) == plan.length
    ensures L1(plan.fct, |plan.fct|) == plan.length && Left(plan.fct, |plan.fct|) == 1
  {
    LeftEnds(plan.length, plan.fct);
  }

  lemma CircleOf(root: nat -> Complex, n: nat)
    requires RootFamily(root) && n > 0
    ensures Mul(root(n), Conj(root(n))) == ONE && Pow(root(n), n) == ONE
    ensures Mul(Conj(root(n)), Conj(Conj(root(n)))) == ONE && Pow(Conj(root(n)), n) == ONE
  {
    RootIs(root, n);
    RootCircle(root(n), n);
    CircleBack(root(n), n);
    hide *;
    CircleParts(root(n), n);
    CircleParts(Conj(root(n)), n);
  }

  lemma CircleParts(w: Complex, n: nat)
    requires FullCircle(w, n)
    ensures Mul(w, Conj(w)) == ONE && Pow(w, n) == ONE
  {}

  /** One turn of the forward loop keeps its invariant. */
  lemma ForwardTurn(x: seq<real>, y: seq<real>, input: seq<Complex>, v: Complex, fct: seq<nat>, k: nat, n: nat,
                    ido: nat, ip: nat, l1: nat)
    requires k < |fct| && ip == fct[k] && l1 == L1(fct, k) && ido == Left(fct, k + 1) > 0 && Times3(l1, ip, ido) == n
    requires L1(fct, k + 1) == Prod(l1, ip) && Left(fct, k) == Prod(ip, ido) && Pow(v, n) == ONE
    requires RealStage(x, input, v, L1(fct, k + 1), Left(fct, k + 1)) && IsRealForward(x, y, v, ido, ip, l1)
    ensures RealStage(y, input, v, L1(fct, k), Left(fct, k))
  {
    hide *;
    ProdSwap(ip, ido);
    ForwardStep(x, y, input, v, ido, ip, l1);
  }

  lemma BackwardTurn(x: seq<real>, y: seq<real>, spec: seq<Complex>, w: Complex, fct: seq<nat>, k: nat, n: nat,
                     ido: nat, ip: nat, l1: nat)
    requires k < |fct| && ip == fct[k] && l1 == L1(fct, k) > 0 && ido == Left(fct, k + 1) && Times3(l1, ip, ido) == n
    requires L1(fct, k + 1) == Prod(l1, ip) && Left(fct, k) == Prod(ip, ido) && Pow(w, n) == ONE
    requires BackStage(x, spec, w, L1(fct, k), Left(fct, k)) && IsRealBackward(x, y, w, ido, ip, l1)
    ensures BackStage(y, spec, w, L1(fct, k + 1), Left(fct, k + 1))
  {
    hide *;
    ProdSwap(ip, ido);
    BackwardStep(x, y, spec, w, ido, ip, l1);
  }

  /** The loop of rfftp_forward: from the last factor to the first, spectra are merged. */
  method RunForward(plan: RealPlan, c: array<real>, ch: array<real>, root: nat -> Complex) returns (p1: array<real>)
    requires c != ch && c.Length == ch.Length == plan.length
    requires RootFamily(root) && ValidRealPlan(plan, root(plan.length))
    modifies c, ch
    ensures p1 == c || p1 == ch
    ensures Unpacked(p1[..]) == Transform(AsComplex(old(c[..])), Conj(root(plan.length)))
  {
    ghost var x, w := c[..], root(plan.length);
    ghost var v := Conj(w);
    hide *;
    var fct, n := plan.fct, plan.length;
    PlanEnds(plan, w);
    CircleOf(root, n);
    var l1 := n;
    p1 := c;
    var p2 := ch;
    ForwardStart(x, v);
    for k1 := 0 to |fct|
      invariant l1 == L1(fct, |fct| - k1)
      invariant (p1 == c && p2 == ch) || (p1 == ch && p2 == c)
      invariant RealStage(p1[..], AsComplex(x), v, l1, Left(fct, |fct| - k1))
    {
      var k := |fct| - k1 - 1;
      RealPlanParts(plan, w, k);
      var ip := fct[k];
      AboveOne(ip);
      DivideBack(L1(fct, k), ip, n, Ido(n, fct, k));
      var ido := n / l1;
      l1 := l1 / ip;
      ghost var was := p1[..];
      var swapped := OneForward(ido, ip, l1, p1, p2, FactorsPart(plan.mem, n, fct, k), RootsPart(plan.mem, n, fct, k),
                                root, w);
      if swapped {
        p1, p2 := p2, p1;
      }
      ForwardTurn(was, p1[..], AsComplex(x), v, fct, k, n, ido, ip, l1);
    }
    ForwardLeaves(p1[..], x, v);
  }

  /** The buffer that the last pass leaves holds the transform. */
  lemma ForwardLeaves(y: seq<real>, x: seq<real>, v: Complex)
    requires RealStage(y, AsComplex(x), v, 1, |x|) && |y| == |x|
    ensures Unpacked(y) == Transform(AsComplex(x), v)
  {
    hide RealStage, BlockBin, DftAt;
    forall m | 0 <= m < |x|
      ensures Unpacked(y)[m] == Transform(AsComplex(x), v)[m]
    {
      ForwardEnd(y, AsComplex(x), v, m);
    }
  }

  /** The loop of rfftp_backward. */
  method RunBackward(plan: RealPlan, c: array<real>, ch: array<real>, root: nat -> Complex) returns (p1: array<real>)
    requires c != ch && c.Length == ch.Length == plan.length
    requires RootFamily(root) && ValidRealPlan(plan, root(plan.length))
    modifies c, ch
    ensures p1 == c || p1 == ch
    ensures AsComplex(p1[..]) == Transform(Unpacked(old(c[..])), root(plan.length))
  {
    ghost var x, w := c[..], root(plan.length);
    hide *;
    var fct, n := plan.fct, plan.length;
    PlanEnds(plan, w);
    CircleOf(root, n);
    var l1 := 1;
    p1 := c;
    var p2 := ch;
    BackwardStart(x, w);
    for k := 0 to |fct|
      invariant l1 == L1(fct, k)
      invariant (p1 == c && p2 == ch) || (p1 == ch && p2 == c)
      invariant BackStage(p1[..], Unpacked(x), w, l1, Left(fct, k))
    {
      RealPlanParts(plan, w, k);
      var ip := fct[k];
      AboveOne(ip);
      DivideBack(l1, ip, n, Ido(n, fct, k));
      var ido := n / (ip * l1);
      ghost var was := p1[..];
      OneBackward(ido, ip, l1, p1, p2, FactorsPart(plan.mem, n, fct, k), RootsPart(plan.mem, n, fct, k), root, w);
      p1, p2 := p2, p1;
      BackwardTurn(was, p1[..], Unpacked(x), w, fct, k, n, ido, ip, l1);
      ProdIs(l1, ip);
      l1 := l1 * ip;
    }
    BackwardEnd(p1[..], Unpacked(x), w);
  }

  // ---------- scaling ----------

  function ScaledReals(fct: real, x: seq<real>): (y: seq<real>)
    ensures |y| == |x|
  {
    seq(|x|, i requires 0 <= i < |x| => fct * x[i])
  }

  lemma ScaledRealsByOne(x: seq<real>)
    ensures ScaledReals(1.0, x) == x
  {}

  lemma ScaledAt(fct: real, x: seq<real>, i: nat)
    requires i < |x|
    ensures ScaledReals(fct, x)[i] == fct * x[i] == x[i] * fct
  {}

  /** The loop that scales while it copies. */
  method CopyScaled(c: array<real>, p1: array<real>, fct: real)
    requires c.Length == p1.Length && c != p1
    modifies c
    ensures c[..] == ScaledReals(fct, old(p1[..]))
  {
    hide ScaledReals;
    ghost var x := p1[..];
    for i := 0 to c.Length
      invariant p1[..] == x && forall j :: 0 <= j < i ==> c[j] == ScaledReals(fct, x)[j]
    {
      ScaledAt(fct, x, i);
      c[i] := fct * p1[i];
    }
  }

  /** The loop that scales in place. */
  method ScaleHere(c: array<real>, fct: real)
    modifies c
    ensures c[..] == ScaledReals(fct, old(c[..]))
  {
    hide ScaledReals;
    ghost var x := c[..];
    for i := 0 to c.Length
      invariant forall j :: 0 <= j < i ==> c[j] == ScaledReals(fct, x)[j]
      invariant forall j :: i <= j < c.Length ==> c[j] == x[j]
    {
      ScaledAt(fct, x, i);
      c[i] := c[i] * fct;
    }
  }

  /** copy_and_norm. */
  method CopyAndNorm(c: array<real>, p1: array<real>, fct: real)
    requires c.Length == p1.Length
    modifies c
    ensures c[..] == ScaledReals(fct, old(p1[..]))
  {
    ScaledRealsByOne(p1[..]);
    hide ScaledReals;
    ghost var x := p1[..];
    if p1 != c {
      if fct != 1.0 {
        CopyScaled(c, p1, fct);
      } else {
        forall i | 0 <= i < c.Length {
          c[i] := p1[i];
        }
        assert c[..] == x;
      }
    } else if fct != 1.0 {
      ScaleHere(c, fct);
    }
  }

  lemma ScaledPairs(fct: real, x: seq<real>)
    ensures AsComplex(ScaledReals(fct, x)) == Scaled(fct, AsComplex(x))
    ensures Unpacked(ScaledReals(fct, x)) == Scaled(fct, Unpacked(x))
  {
    forall m: nat | m < |x|
      ensures BlockBin(ScaledReals(fct, x), |x|, 0, m) == Scale(fct, BlockBin(x, |x|, 0, m))
    {}
    forall m | 0 <= m < |x|
      ensures AsComplex(ScaledReals(fct, x))[m] == Scaled(fct, AsComplex(x))[m]
    {
      assert Scale(fct, Complex(x[m], 0.0)) == Complex(fct * x[m], 0.0);
    }
  }

  // ---------- rfftp_forward and rfftp_backward ----------

  lemma OneValue(x: seq<real>, v: Complex)
    requires |x| == 1
    ensures Transform(AsComplex(x), v) == AsComplex(x) == Unpacked(x) == Transform(Unpacked(x), v)
  {
    assert BlockBin(x, 1, 0, 0) == Complex(x[0], 0.0);
    assert Unpacked(x) == AsComplex(x);
    TransformOfOne(AsComplex(x), v);
    hide *;
  }

  /** rfftp_forward: a single value is left alone. */
  method RfftpForward(plan: RealPlan, c: array<real>, fct: real, root: nat -> Complex)
    requires c.Length == plan.length && RootFamily(root) && ValidRealPlan(plan, root(plan.length))
    modifies c
    ensures plan.length > 1 || fct == 1.0 ==>
              Unpacked(c[..]) == Scaled(fct, Transform(AsComplex(old(c[..])), Conj(root(plan.length))))
    ensures plan.length == 1 ==> c[..] == old(c[..])
  {
    hide *;
    ghost var x := c[..];
    if plan.length == 1 {
      OneValue(x, Conj(root(1)));
      ScaledByOne(Unpacked(x));
      return;
    }
    var n := plan.length;
    var ch := new real[n];
    var p1 := RunForward(plan, c, ch, root);
    ScaledPairs(fct, p1[..]);
    CopyAndNorm(c, p1, fct);
  }

  /** rfftp_backward. */
  method RfftpBackward(plan: RealPlan, c: array<real>, fct: real, root: nat -> Complex)
    requires c.Length == plan.length && RootFamily(root) && ValidRealPlan(plan, root(plan.length))
    modifies c
    ensures plan.length > 1 || fct == 1.0 ==>
              AsComplex(c[..]) == Scaled(fct, Transform(Unpacked(old(c[..])), root(plan.length)))
    ensures plan.length == 1 ==> c[..] == old(c[..])
  {
    hide *;
    ghost var x := c[..];
    if plan.length == 1 {
      OneValue(x, root(1));
      ScaledByOne(AsComplex(x));
      return;
    }
    var n := plan.length;
    var ch := new real[n];
    var p1 := RunBackward(plan, c, ch, root);
    ScaledPairs(fct, p1[..]);
    CopyAndNorm(c, p1, fct);
  }
}
