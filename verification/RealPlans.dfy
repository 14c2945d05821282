/** The plan of a real transform: its radices and its arena of factors and roots. */
module RealPlans {
  import opened Basics
  import opened Wrappers
  import opened Complexes
  import opened Dft
  import opened RadixPass
  import opened Passes
  import opened PassG
  import opened Division
  import opened Factorize
  import opened Plans
  import opened PassAll
  import opened SinCos
  import opened RealSpectra
  import opened RealColumns
  import opened RealPasses
  import RealTwiddles

  /** rfftp_plan: the arena `mem` is not written again once the plan is made. */
  datatype RealPlan = RealPlan(length: nat, fct: seq<nat>, mem: seq<real>)

  // ---------- the arena ----------

  /** Two reals a root, for the passes that are not hard-coded. */
  function RootsLength(fct: seq<nat>, k: nat): nat
    requires k < |fct|
  {
    if fct[k] > 5 then 2 * fct[k] else 0
  }

  /** Where the factors of pass `k` start: the sizes of all regions before it. */
  function RealOffset(n: nat, fct: seq<nat>, k: nat): nat
    requires k <= |fct|
  {
    if k == 0 then 0 else RealOffset(n, fct, k - 1) + TwLength(n, fct, k - 1) + RootsLength(fct, k - 1)
  }

  lemma {:induction false} RealOffsetOrder(n: nat, fct: seq<nat>, a: nat, b: nat)
    requires a <= b <= |fct|
    ensures RealOffset(n, fct, a) <= RealOffset(n, fct, b)
    decreases b
  {
    if a < b { RealOffsetOrder(n, fct, a, b - 1); }
  }

  /** rfftp_twsize. */
  method RealTwSize(n: nat, fct: seq<nat>) returns (twsize: nat)
    requires Product(fct) == n && Planned(fct)
    ensures twsize == RealOffset(n, fct, |fct|)
  {
    hide Product, Planned, Prod;
    twsize := 0;
    var l1 := 1;
    EmptyProduct(fct);
    for k := 0 to |fct|
      invariant l1 == L1(fct, k) && twsize == RealOffset(n, fct, k)
    {
      PassSizes(n, fct, k);
      var ip := fct[k];
      ProdIs(l1, ip);
      var ido := n / (l1 * ip);
      ProdIs(ip - 1, ido - 1);
      twsize := twsize + (ip - 1) * (ido - 1);
      if ip > 5 {
        twsize := twsize + 2 * ip;
      }
      l1 := l1 * ip;
    }
  }

  function FactorsPart(mem: seq<real>, n: nat, fct: seq<nat>, k: nat): seq<real>
    requires k < |fct|
  {
    var a := RealOffset(n, fct, k);
    if a + TwLength(n, fct, k) <= |mem| then mem[a..a + TwLength(n, fct, k)] else []
  }

  /** The roots at `at`, real and imaginary part side by side. */
  function RootsAt(mem: seq<real>, at: nat, ip: nat): (roots: seq<Complex>)
    ensures |roots| == ip
  {
    seq(ip, (m: nat) => Complex(Slot(mem, at + 2 * m), Slot(mem, at + 2 * m + 1)))
  }

  function RootsPart(mem: seq<real>, n: nat, fct: seq<nat>, k: nat): seq<Complex>
    requires k < |fct|
  {
    RootsAt(mem, RealOffset(n, fct, k) + TwLength(n, fct, k), fct[k])
  }

  ghost predicate RealPassTable(mem: seq<real>, n: nat, fct: seq<nat>, w: Complex, k: nat)
    requires k < |fct|
  {
    var ip, l1, ido := fct[k], L1(fct, k), Ido(n, fct, k);
    && RealOffset(n, fct, k + 1) <= |mem|
    && TableFactors(FactorsPart(mem, n, fct, k), w, ido, ip, l1)
    && (ip > 5 ==> PowerTable(RootsPart(mem, n, fct, k), Pow(w, Prod(l1, ido)), ip))
  }

  lemma RootsAtKept(mem: seq<real>, mem': seq<real>, at: nat, ip: nat, e: nat)
    requires at + 2 * ip <= e <= |mem| == |mem'| && mem[..e] == mem'[..e]
    ensures RootsAt(mem, at, ip) == RootsAt(mem', at, ip)
  {
    forall m: nat | m < ip
      ensures RootsAt(mem, at, ip)[m] == RootsAt(mem', at, ip)[m]
    {
      assert mem[at + 2 * m] == mem[..e][at + 2 * m] == mem'[at + 2 * m];
      assert mem[at + 2 * m + 1] == mem[..e][at + 2 * m + 1] == mem'[at + 2 * m + 1];
    }
  }

  /** Writing behind a pass's regions leaves its tables alone: the regions do not overlap. */
  lemma RealPassTableKept(mem: seq<real>, mem': seq<real>, n: nat, fct: seq<nat>, w: Complex, k: nat)
    requires k < |fct| && RealPassTable(mem, n, fct, w, k) && |mem| == |mem'|
    requires mem[..RealOffset(n, fct, k + 1)] == mem'[..RealOffset(n, fct, k + 1)]
    ensures RealPassTable(mem', n, fct, w, k)
  {
    hide *;
    var tw, tws, e := RealOffset(n, fct, k), RealOffset(n, fct, k) + TwLength(n, fct, k), RealOffset(n, fct, k + 1);
    TablesAre(mem, n, fct, w, k, tw, tws);
    SliceKept(mem, mem', tw, tws, e);
    if fct[k] > 5 { RootsAtKept(mem, mem', tws, fct[k], e); }
    TablesMade(mem', n, fct, w, k, tw, tws);
  }

  lemma TablesAre(mem: seq<real>, n: nat, fct: seq<nat>, w: Complex, k: nat, tw: nat, tws: nat)
    requires k < |fct| && tw == RealOffset(n, fct, k) && tws == tw + TwLength(n, fct, k) &&
             RealPassTable(mem, n, fct, w, k)
    ensures tws <= RealOffset(n, fct, k + 1) <= |mem| &&
            TableFactors(mem[tw..tws], w, Ido(n, fct, k), fct[k], L1(fct, k))
    ensures fct[k] > 5 ==> tws + 2 * fct[k] <= RealOffset(n, fct, k + 1)
    ensures fct[k] > 5 ==> PowerTable(RootsAt(mem, tws, fct[k]), Pow(w, Prod(L1(fct, k), Ido(n, fct, k))), fct[k])
  {
    hide TableFactors, PowerTable, Pow, Prod, Ido, L1, RootsAt, TwLength;
  }

  lemma SliceKept(mem: seq<real>, mem': seq<real>, s: nat, t: nat, e: nat)
    requires s <= t <= e <= |mem| == |mem'| && mem[..e] == mem'[..e]
    ensures mem[s..t] == mem'[s..t]
  {
    assert mem[s..t] == mem[..e][s..t] && mem'[s..t] == mem'[..e][s..t];
  }

  // ---------- what the loops of RealTwiddles leave ----------

  lemma FactorPlace(l1: nat, ip: nat, ido: nat, q: nat, j: nat)
    requires 0 < q && 2 * q < ido && 0 < j < ip
    ensures Idx(2 * q - 2, ido - 1, j - 1) == RealTwiddles.Rows(j - 1, ido - 1) + 2 * q - 2
    ensures Idx(2 * q - 2, ido - 1, j - 1) + 1 < Prod(ip - 1, ido - 1) == RealTwiddles.Rows(ip - 1, ido - 1)
    ensures Times3(l1, q, j) == RealTwiddles.Mul3(l1, j, q)
  {
    IdxBound(2 * q - 1, ido - 1, j - 1, ip - 1);
    assert Idx(2 * q - 1, ido - 1, j - 1) == Idx(2 * q - 2, ido - 1, j - 1) + 1;
    assert (l1 * q) * j == l1 * (j * q);
  }

  lemma FactorsHeld(turn: real -> Complex, n: nat, mem: array<real>, tw: nat, l1: nat, ip: nat, ido: nat, wa: seq<real>)
    requires Circle(turn) && n > 0 && ido > 0 && ip > 0 && tw + Prod(ip - 1, ido - 1) <= mem.Length
    requires RealTwiddles.FactorsTo(turn, n, mem, tw, l1, ido, ip, 0) && wa == mem[tw..tw + Prod(ip - 1, ido - 1)]
    ensures TableFactors(wa, Root(turn)(n), ido, ip, l1)
  {
    hide Circle, SinCos.Entry, Pow, Prod, Times3, Idx, RealTwiddles.Rows, RealTwiddles.Mul3;
    forall q: nat, j: nat | 0 < q && 2 * q < ido && 0 < j < ip
      ensures FactorAt(wa, ido, q, j) == Pow(Root(turn)(n), Times3(l1, q, j))
    {
      FactorPlace(l1, ip, ido, q, j);
      assert RealTwiddles.Factor(turn, n, mem, tw, l1, ido, j, q);
      EntryIsPower(turn, Times3(l1, q, j), n);
      var a := Idx(2 * q - 2, ido - 1, j - 1);
      assert wa[a] == mem[tw + a] && wa[a + 1] == mem[tw + a + 1];
    }
  }

  lemma RootHeld(turn: real -> Complex, mem: array<real>, tws: nat, ip: nat, m: nat)
    requires Circle(turn) && ip % 2 == 1 && m < ip && RealTwiddles.RootsTo(turn, ip, mem, tws, ip / 2 + 1)
    ensures Holds(mem, tws + 2 * m, Pow(Root(turn)(ip), m))
  {
    EntryIsPower(turn, m, ip);
    hide Circle, SinCos.Entry;
    if m == 0 {
    } else if m <= ip / 2 {
      assert RealTwiddles.MirrorPair(turn, ip, mem, tws, m);
    } else {
      assert RealTwiddles.MirrorPair(turn, ip, mem, tws, ip - m);
    }
  }

  lemma RootsHeld(turn: real -> Complex, mem: array<real>, tws: nat, ip: nat)
    requires Circle(turn) && ip % 2 == 1 && RealTwiddles.RootsTo(turn, ip, mem, tws, ip / 2 + 1)
    ensures PowerTable(RootsAt(mem[..], tws, ip), Root(turn)(ip), ip)
  {
    RootIsPrincipal(turn, ip);
    assert Pow(Root(turn)(ip), ip) == ONE;
    hide Circle, Pow, Root, PrincipalRoot, RealTwiddles.RootsTo;
    forall m: nat | m < ip
      ensures At(RootsAt(mem[..], tws, ip), m) == Pow(Root(turn)(ip), m)
    {
      RootHeld(turn, mem, tws, ip, m);
    }
  }

  // ---------- rfftp_comp_twiddle ----------

  lemma Shapes(n: nat, l1: nat, ip: nat, ido: nat)
    requires n == Times3(l1, ip, ido) && l1 > 0 && ip > 1 && ido > 0
    ensures n == RealTwiddles.Mul3(l1, ip, ido) && n == RealTwiddles.Rows(ip, n / ip) && n > 0 && n / ip > 0
    ensures Prod(ip - 1, ido - 1) == RealTwiddles.Rows(ip - 1, ido - 1)
  {
    var m := l1 * ido;
    assert l1 * ip * ido == l1 * (ip * ido) == ip * m;
    ModUnique(n, ip, m, 0);
  }

  /** The regions of one pass. The last pass has no inner positions and takes no factors. */
  method FillRealPass(turn: real -> Complex, n: nat, fct: seq<nat>, k: nat, l1: nat, ido: nat, twid: array<real>,
                      mem: array<real>)
    requires Circle(turn) && k < |fct| && Radix(fct[k]) && l1 == L1(fct, k) > 0 && ido == Ido(n, fct, k) > 0
    requires n == Times3(l1, fct[k], ido) && n > 0 && (k + 1 == |fct| ==> ido == 1)
    requires twid != mem && Table(turn, n, twid, 0, 0, (n + 1) / 2) && RealOffset(n, fct, k + 1) <= mem.Length
    modifies mem
    ensures RealPassTable(mem[..], n, fct, Root(turn)(n), k)
    ensures mem[..RealOffset(n, fct, k)] == old(mem[..RealOffset(n, fct, k)])
  {
    hide *;
    var ip, tw := fct[k], RealOffset(n, fct, k);
    AboveOne(ip);
    var tws := tw + Prod(ip - 1, ido - 1);
    ghost var w := Root(turn)(n);
    Shapes(n, l1, ip, ido);
    CircleIsRootFamily(turn);
    RootBelow(Root(turn), l1, ip, ido);
    TwIs(n, fct, k, ip, ido);
    if k + 1 < |fct| {
      RealTwiddles.FillRealTwiddles(turn, n, twid, mem, tw, l1, ip, ido);
      FactorsHeld(turn, n, mem, tw, l1, ip, ido, mem[tw..tws]);
    } else {
      NoFactors(mem[tw..tws], w, ip, l1);
    }
    ghost var part := mem[tw..tws];
    if ip > 5 {
      RealTwiddles.FillRealRoots(turn, n, twid, mem, tws, ip, n / ip);
      RootsHeld(turn, mem, tws, ip);
    }
    assert mem[tw..tws] == part;
    TablesMade(mem[..], n, fct, w, k, tw, tws);
  }

  lemma AboveOne(ip: nat)
    requires Radix(ip)
    ensures ip > 1 && (ip > 5 ==> ip % 2 == 1)
  {
    RadixSize(ip);
  }

  lemma TwIs(n: nat, fct: seq<nat>, k: nat, ip: nat, ido: nat)
    requires k < |fct| && ip == fct[k] > 0 && ido == Ido(n, fct, k) > 0
    ensures TwLength(n, fct, k) == Prod(ip - 1, ido - 1)
    ensures RealOffset(n, fct, k + 1) == RealOffset(n, fct, k) + Prod(ip - 1, ido - 1) + if ip > 5 then 2 * ip else 0
  {}

  lemma NoFactors(wa: seq<real>, w: Complex, ip: nat, l1: nat)
    ensures TableFactors(wa, w, 1, ip, l1)
  {}

  lemma TablesMade(mem: seq<real>, n: nat, fct: seq<nat>, w: Complex, k: nat, tw: nat, tws: nat)
    requires k < |fct| && tw == RealOffset(n, fct, k) && tws == tw + TwLength(n, fct, k) &&
             RealOffset(n, fct, k + 1) <= |mem|
    requires tws <= |mem| && TableFactors(mem[tw..tws], w, Ido(n, fct, k), fct[k], L1(fct, k))
    requires fct[k] > 5 ==> PowerTable(RootsAt(mem, tws, fct[k]), Pow(w, Prod(L1(fct, k), Ido(n, fct, k))), fct[k])
    ensures RealPassTable(mem, n, fct, w, k)
  {
    hide TableFactors, PowerTable, Pow, Prod, Ido, L1, RootsAt, TwLength;
  }

  /** rfftp_comp_twiddle: every pass finds its factors in its own part of the arena. */
  method CompRealTwiddle(turn: real -> Complex, n: nat, fct: seq<nat>, mem: array<real>)
    requires Circle(turn) && n > 0 && Product(fct) == n && Planned(fct) && mem.Length == RealOffset(n, fct, |fct|)
    modifies mem
    ensures forall k :: 0 <= k < |fct| ==> RealPassTable(mem[..], n, fct, Root(turn)(n), k)
  {
    hide *;
    var twid := new real[2 * n];
    SinCosHalf(turn, n, twid);
    var l1 := 1;
    EmptyProduct(fct);
    for k := 0 to |fct|
      invariant l1 == L1(fct, k) && Table(turn, n, twid, 0, 0, (n + 1) / 2)
      invariant forall q :: 0 <= q < k ==> RealPassTable(mem[..], n, fct, Root(turn)(n), q)
    {
      RadixOf(n, fct, k);
      RealOffsetOrder(n, fct, k, |fct|);
      RealOffsetOrder(n, fct, k + 1, |fct|);
      var ip := fct[k];
      var ido := n / (l1 * ip);
      ghost var was, tw := mem[..], RealOffset(n, fct, k);
      FillRealPass(turn, n, fct, k, l1, ido, twid, mem);
      assert mem[..tw] == mem[..][..tw] && was[..tw] == mem[..tw];
      TablesKept(was, mem[..], n, fct, Root(turn)(n), k);
      l1 := l1 * ip;
    }
  }

  lemma TablesKept(was: seq<real>, now: seq<real>, n: nat, fct: seq<nat>, w: Complex, k: nat)
    requires k <= |fct| && RealOffset(n, fct, k) <= |was| == |now| &&
             was[..RealOffset(n, fct, k)] == now[..RealOffset(n, fct, k)]
    requires forall q :: 0 <= q < k ==> RealPassTable(was, n, fct, w, q)
    ensures forall q :: 0 <= q < k ==> RealPassTable(now, n, fct, w, q)
  {
    hide *;
    forall q | 0 <= q < k
      ensures RealPassTable(now, n, fct, w, q)
    {
      RealOffsetOrder(n, fct, q + 1, k);
      PrefixOfPrefix(now, was, RealOffset(n, fct, q + 1), RealOffset(n, fct, k));
      RealPassTableKept(was, now, n, fct, w, q);
    }
  }

  lemma RadixOf(n: nat, fct: seq<nat>, k: nat)
    requires Product(fct) == n && Planned(fct) && k < |fct|
    ensures Radix(fct[k]) && (k + 1 == |fct| ==> Ido(n, fct, k) == 1)
    ensures var l1, ip, ido := L1(fct, k), fct[k], Ido(n, fct, k);
            && l1 > 0 && ip > 0 && ido > 0 && Times3(l1, ip, ido) == n
            && l1 * ip > 0 && n / (l1 * ip) == ido && L1(fct, k + 1) == l1 * ip
  {
    PassSizes(n, fct, k);
    ProdIs(L1(fct, k), fct[k]);
    IdoIs(n, fct, k);
    hide Ido, L1, Prod, Times3;
  }

  lemma PrefixOfPrefix(a: seq<real>, b: seq<real>, m: nat, t: nat)
    requires m <= t <= |a| == |b| && a[..t] == b[..t]
    ensures a[..m] == b[..m]
  {
    assert a[..m] == a[..t][..m] && b[..m] == b[..t][..m];
  }

  ghost predicate ValidRealPlan(plan: RealPlan, w: Complex) {
    && plan.length > 0
    && Product(plan.fct) == plan.length
    && Planned(plan.fct)
    && EvensFirst(plan.fct)
    && forall k :: 0 <= k < |plan.fct| ==> RealPassTable(plan.mem, plan.length, plan.fct, w, k)
  }

  /** make_rfftp_plan. */
  method MakeRealPlan(length: nat, turn: real -> Complex) returns (plan: Option<RealPlan>)
    requires Circle(turn)
    ensures plan.Some? ==> plan.value.length == length && ValidRealPlan(plan.value, Root(turn)(length))
    ensures length == 0 ==> plan.None?
    ensures 0 < length < 2 * Pow3(NFCT - 1) ==> plan.Some?
  {
    hide Circle, Pow3, RealPassTable, Root, RealOffset;
    if length == 0 {
      return None;
    }
    if length == 1 {
      return Some(RealPlan(1, [], []));
    }
    var ok, fct := FactorizeLength(length);
    if !ok {
      return None;
    }
    var tws := RealTwSize(length, fct);
    var mem := new real[tws];
    CompRealTwiddle(turn, length, fct, mem);
    plan := Some(RealPlan(length, fct, mem[..]));
  }
}
