/** Making a plan and running all its passes: the packed complex transform. */
module PassAll {
  import opened Basics
  import opened Wrappers
  import opened Complexes
  import opened Sums
  import opened Dft
  import opened RadixPass
  import opened Butterflies
  import opened Passes
  import opened PassG
  import opened Primes
  import opened Factorize
  import opened Plans
  import opened SinCos

  /** cfftp_plan: the arena `mem` is not written again once the plan is made. */
  datatype Plan = Plan(length: nat, fct: seq<nat>, mem: seq<Complex>)

  ghost predicate ValidPlan(plan: Plan, w: Complex) {
    && plan.length > 0
    && Product(plan.fct) == plan.length
    && Planned(plan.fct)
    && forall k :: 0 <= k < |plan.fct| ==> PassTable(plan.mem, plan.length, plan.fct, w, k)
  }

  /** make_cfftp_plan. */
  method MakePlan(length: nat, turn: real -> Complex) returns (plan: Option<Plan>)
    requires Circle(turn)
    ensures plan.Some? ==> plan.value.length == length && ValidPlan(plan.value, Root(turn)(length))
    ensures plan.Some? && length == 1 ==> plan.value.fct == []
    ensures length == 0 ==> plan.None?
    ensures 0 < length < 2 * Pow3(NFCT - 1) ==> plan.Some?
  {
    hide Circle, Root, Pow3, TrigTable;
    if length == 0 {
      return None;
    }
    if length == 1 {
      return Some(Plan(1, [], []));
    }
    var ok, fct := FactorizeLength(length);
    if !ok {
      return None;
    }
    var tws := TwSize(length, fct);
    var mem := new Complex[tws];
    var twid := TrigEntries(turn, length);
    CompTwiddle(length, fct, twid, mem, Root(turn)(length));
    plan := Some(Plan(length, fct, mem[..]));
  }

  lemma RootBelow(root: nat -> Complex, l1: nat, ip: nat, ido: nat)
    requires RootFamily(root) && l1 > 0 && ip > 0 && ido > 0
    ensures Pow(root(Times3(l1, ip, ido)), Prod(l1, ido)) == root(ip)
  {
    assert Prod(l1, ido) > 0;
    assert Refines(root, ip, Prod(l1, ido));
    assert ip * Prod(l1, ido) == Times3(l1, ip, ido);
  }

  lemma RootIs(root: nat -> Complex, n: nat)
    requires RootFamily(root) && n > 0
    ensures PrincipalRoot(root(n), n) && UnitRoot(root(n), n)
  {}

  lemma TwPartSize(mem: seq<Complex>, n: nat, fct: seq<nat>, w: Complex, k: nat)
    requires k < |fct| && fct[k] > 0 && Ido(n, fct, k) > 0 && PassTable(mem, n, fct, w, k)
    ensures |TwPart(mem, n, fct, k)| == Prod(fct[k] - 1, Ido(n, fct, k) - 1)
    ensures |TwsPart(mem, n, fct, k)| == TwsLength(fct, k)
    ensures Twiddles(TwPart(mem, n, fct, k), w, Ido(n, fct, k), fct[k], L1(fct, k))
    ensures fct[k] > 11 ==> forall m: nat :: m < fct[k] ==>
      At(TwsPart(mem, n, fct, k), m) == Pow(Pow(w, Prod(L1(fct, k), Ido(n, fct, k))), m)
  {
    hide Prod, Pow, Product, Ido, L1;
  }

  /** The chain of comparisons that picks a pass; the generic pass leaves its result in `p1`. */
  method OnePass(ido: nat, ip: nat, l1: nat, p1: array<Complex>, p2: array<Complex>, wa: seq<Complex>,
                 tws: seq<Complex>, sign: int, root: nat -> Complex, ghost w: Complex) returns (swapped: bool)
    requires p1 != p2 && p1.Length == p2.Length == Times3(l1, ip, ido) && Radix(ip) && l1 > 0 && ido > 0
    requires RootFamily(root) && w == root(Times3(l1, ip, ido))
    requires Twiddles(wa, w, ido, ip, l1) && |wa| == Prod(ip - 1, ido - 1)
    requires ip > 11 ==> |tws| == ip && forall m: nat :: m < ip ==> At(tws, m) == Pow(Pow(w, Prod(l1, ido)), m)
    modifies p1, p2
    ensures swapped ==> IsPass(old(p1[..]), p2[..], Signed(w, sign), ido, ip, l1)
    ensures !swapped ==> IsPass(old(p1[..]), p1[..], Signed(w, sign), ido, ip, l1)
  {
    hide Times3, Prod, Pow, Mul, Conj, Twiddles, IsPass, UnitRoot, Prime, RootFamily, FoldsRightly, PrincipalRoot,
         TwiddleIndex;
    RootBelow(root, l1, ip, ido);
    PositiveSize(l1, ip, ido);
    RootIs(root, Times3(l1, ip, ido));
    HardCodedRowsFoldRightly();
    swapped := true;
    if ip == 4 {
      Pass4(ido, l1, p1, p2, wa, sign, w);
    } else if ip == 2 {
      Pass2(ido, l1, p1, p2, wa, sign, w);
    } else if ip == 3 {
      OddPass(ido, l1, 3, ROWS_3, root(3), p1, p2, wa, sign, w);
    } else if ip == 5 {
      OddPass(ido, l1, 5, ROWS_5, root(5), p1, p2, wa, sign, w);
    } else if ip == 7 {
      OddPass(ido, l1, 7, ROWS_7, root(7), p1, p2, wa, sign, w);
    } else if ip == 11 {
      OddPass(ido, l1, 11, ROWS_11, root(11), p1, p2, wa, sign, w);
    } else {
      AboveEleven(ip);
      forall i: nat, j: nat | 0 < i < ido && 0 < j < ip
        ensures TwiddleIndex(ido, i, j) < |wa|
      {
        TwiddleInside(ido, ip, i, j);
      }
      PassG.PassG(ido, ip, l1, p1, p2, wa, tws, sign, w);
      swapped := false;
    }
  }

  lemma PositiveSize(l1: nat, ip: nat, ido: nat)
    requires l1 > 0 && ip > 0 && ido > 0
    ensures Times3(l1, ip, ido) > 0
  {}

  lemma AboveEleven(p: nat)
    requires p % 2 == 1 && Prime(p) && p != 3 && p != 5 && p != 7 && p != 11
    ensures p > 11
  {
    assert p % 3 == 0 ==> p == 3;
  }

  /** The radices not yet done multiply to the length of the sums still standing. */
  function Left(fct: seq<nat>, k: nat): nat
    requires k <= |fct|
  {
    Product(fct[k..])
  }

  lemma LeftStep(n: nat, fct: seq<nat>, k: nat)
    requires Product(fct) == n && Planned(fct) && k < |fct|
    ensures Left(fct, k) == Prod(fct[k], Left(fct, k + 1))
    ensures Left(fct, k + 1) == Ido(n, fct, k)
  {
    PassSizes(n, fct, k);
    assert fct[k..] == [fct[k]] + fct[k + 1..];
    ProductFront(fct[k], fct[k + 1..]);
  }

  lemma LeftEnds(n: nat, fct: seq<nat>)
    requires Product(fct) == n
    ensures L1(fct, 0) == 1 && Left(fct, 0) == n && L1(fct, |fct|) == n && Left(fct, |fct|) == 1
  {
    assert fct[0..] == fct && fct[..|fct|] == fct;
  }

  lemma FullTurn(w: Complex, n: nat, sign: int)
    requires UnitRoot(w, n)
    ensures Pow(Signed(w, sign), n) == ONE
  {
    SignedRoot(w, n, sign);
  }

  lemma PlanParts(plan: Plan, w: Complex, k: nat)
    requires ValidPlan(plan, w) && k < |plan.fct|
    ensures Radix(plan.fct[k]) && PassTable(plan.mem, plan.length, plan.fct, w, k)
    ensures Product(plan.fct) == plan.length && Planned(plan.fct)
  {}

  /** The loop over the factors: whichever buffer is current, finishing its sums is the transform. */
  method RunPasses(plan: Plan, c: array<Complex>, ch: array<Complex>, sign: int, root: nat -> Complex)
    returns (p1: array<Complex>)
    requires c != ch && c.Length == ch.Length == plan.length
    requires RootFamily(root) && ValidPlan(plan, root(plan.length))
    modifies c, ch
    ensures p1 == c || p1 == ch
    ensures p1[..] == Transform(old(c[..]), Signed(root(plan.length), sign))
  {
    hide Product, Planned, Prod, Pow, Times3, Stage, Twiddles, RootFamily, Signed, Transform, PassTable, IsPass, TwPart,
         TwsPart, ValidPlan, Ido, Left, L1, UnitRoot, PrincipalRoot, Radix;
    ghost var x, w := c[..], root(plan.length);
    ghost var v := Signed(w, sign);
    var fct, len := plan.fct, plan.length;
    PlanLength(plan, w);
    RootIs(root, len);
    var l1 := 1;
    p1 := c;
    var p2 := ch;
    LeftEnds(len, fct);
    StageStart(x, v);
    for k := 0 to |fct|
      invariant l1 == L1(fct, k)
      invariant (p1 == c && p2 == ch) || (p1 == ch && p2 == c)
      invariant Stage(p1[..], x, v, l1, Left(fct, k))
    {
      PlanParts(plan, w, k);
      PassSizes(len, fct, k);
      LeftStep(len, fct, k);
      var ip := fct[k];
      ProdIs(l1, ip);
      IdoIs(len, fct, k);
      var l2 := ip * l1;
      var ido := len / l2;
      TwPartSize(plan.mem, len, fct, w, k);
      ghost var was := p1[..];
      var swapped := OnePass(ido, ip, l1, p1, p2, TwPart(plan.mem, len, fct, k), TwsPart(plan.mem, len, fct, k), sign,
                             root, w);
      if swapped {
        p1, p2 := p2, p1;
      }
      FullTurn(w, len, sign);
      StageStep(was, p1[..], x, v, ido, ip, l1);
      l1 := l2;
    }
    LeftEnds(len, fct);
    StageEnd(p1[..], x, v);
  }

  lemma PlanLength(plan: Plan, w: Complex)
    requires ValidPlan(plan, w)
    ensures plan.length > 0 && Product(plan.fct) == plan.length && Planned(plan.fct)
  {}

  lemma ScaledByOne(x: seq<Complex>)
    ensures Scaled(1.0, x) == x
  {}

  lemma TransformOfOne(x: seq<Complex>, w: Complex)
    requires |x| == 1
    ensures Transform(x, w) == x
  {
    hide Mul, Add;
    var f := DftTerm(x, w, 0);
    assert Sum(1, f) == Add(Sum(0, f), f(0));
    assert f(0) == Mul(x[0], Pow(w, 0 * 0));
    MulOne(x[0]);
    AddZero(x[0]);
    assert DftAt(x, w, 0) == x[0];
  }

  /** pass_all: the transform of `c` in place, times `fct`; a single point is left alone. */
  method PassAll(plan: Plan, c: array<Complex>, fct: real, sign: int, root: nat -> Complex)
    requires c.Length == plan.length
    requires RootFamily(root) && ValidPlan(plan, root(plan.length))
    modifies c
    ensures plan.length == 1 ==> c[..] == old(c[..])
    ensures plan.length > 1 ==> c[..] == Scaled(fct, Transform(old(c[..]), Signed(root(plan.length), sign)))
    ensures fct == 1.0 ==> c[..] == Transform(old(c[..]), Signed(root(plan.length), sign))
  {
    hide ValidPlan, RootFamily, Transform, Signed, Scale;
    if plan.length == 1 {
      TransformOfOne(c[..], Signed(root(plan.length), sign));
      return;
    }
    var len := plan.length;
    var ch := new Complex[len];
    ghost var x, v := c[..], Signed(root(plan.length), sign);
    var p1 := RunPasses(plan, c, ch, sign, root);
    ghost var t := Transform(x, v);
    assert p1[..] == t;
    if p1 != c {
      if fct != 1.0 {
        for i := 0 to len
          invariant ch[..] == t
          invariant forall m :: 0 <= m < i ==> c[m] == Scale(fct, t[m])
        {
          c[i] := Scale(fct, ch[i]);
        }
      } else {
        forall i | 0 <= i < len {
          c[i] := p1[i];
        }
        assert c[..] == t;
      }
    } else if fct != 1.0 {
      for i := 0 to len
        invariant forall m :: 0 <= m < i ==> c[m] == Scale(fct, t[m])
        invariant forall m :: i <= m < len ==> c[m] == t[m]
      {
        c[i] := Scale(fct, c[i]);
      }
    }
    ScaledByOne(t);
    if p1 == c && fct == 1.0 {
      assert c[..] == t;
    }
  }
}
