/** The hard-coded real passes: radix 2, 3, 4 and 5, in both directions. */
module RealPasses {
  import opened Basics
  import opened Complexes
  import opened Dft
  import opened RadixPass
  import opened Butterflies
  import opened Passes
  import opened RealSpectra
  import opened RealStages
  import opened RealSymmetry
  import opened RealColumns
  import opened ForwardColumns
  import opened BackwardColumns

  // ---------- the factors ----------

  ghost predicate RealFactors(wa: seq<real>, halfway: seq<Complex>, w: Complex, ido: nat, ip: nat, l1: nat) {
    forall q: nat, j: nat :: q < ido && 2 * q <= ido && j < ip ==>
        Factor(wa, halfway, ido, q, j) == Pow(w, Times3(l1, q, j))
  }

  /** The short transform of a radix transforms columns over the root `v`. */
  ghost predicate Transforms(ip: nat, r: Complex, sign: int, v: Complex) {
    forall col: seq<Complex>, p: nat :: |col| == ip && p < ip ==>
      At(FixedButterfly(ip, r, sign, col), p) == DftAt(col, v, p)
  }

  ghost predicate FullCircle(w: Complex, n: nat) { Mul(w, Conj(w)) == ONE && Pow(w, n) == ONE }

  lemma CircleBack(w: Complex, n: nat)
    requires FullCircle(w, n)
    ensures FullCircle(Conj(w), n)
  {
    hide Mul, Pow, Conj;
    ConjTwice(w);
    MulComm(w, Conj(w));
    PowConj(w, n);
    ConjOne();
  }

  // ---------- forward ----------

  lemma TurnedIsSpread(x: seq<real>, wa: seq<real>, halfway: seq<Complex>, w: Complex, ido: nat, ip: nat, l1: nat,
                       k: nat, q: nat)
    requires RealFactors(wa, halfway, w, ido, ip, l1) && q < ido && 2 * q <= ido
    ensures TurnedColumn(x, wa, halfway, ido, ip, l1, k, q) == Spread(x, Conj(w), ido, ip, l1, k, q)
  {
    forall j: nat | j < ip
      ensures Conj(Factor(wa, halfway, ido, q, j)) == Pow(Conj(w), Times3(l1, q, j))
    {
      PowConj(w, Times3(l1, q, j));
    }
    hide Mul, Pow, Conj, Factor, BlockBin, Times3, Idx;
  }

  lemma CountIsCanon(ido: nat, ip: nat, q: nat, p: nat)
    requires q < ido && 2 * q <= ido && ip > 1
    ensures p < Count(ido, ip, q) <==> Canon(ido, ip, q, p)
  {}

  /** One column: its outputs go to frequencies of block `k`, or to the slots that mirror them. */
  method ForwardColumn(ido: nat, l1: nat, ip: nat, cc: array<real>, ch: array<real>, wa: seq<real>, r: Complex,
                       k: nat, q: nat, ghost w: Complex)
    requires Ready(cc, ch, ido, ip, l1, k) && LiteralsFit(ip, ido, r) && q < ido && 2 * q <= ido
    requires RealFactors(wa, Halfway(ip, r), w, ido, ip, l1) && Transforms(ip, r, -1, Pow(Conj(w), Prod(l1, ido)))
    modifies ch
    ensures forall p: nat :: Canon(ido, ip, q, p) ==> ForwardRight(ch[..], cc[..], Conj(w), ido, ip, l1, k, q, p)
    ensures forall a: nat, b: nat, c: nat :: b < ido && Canon(ido, ip, b, c) && (a != k || b != q) ==>
              BlockBin(ch[..], Prod(ido, ip), a, Idx(b, ido, c))
                  == old(BlockBin(ch[..], Prod(ido, ip), a, Idx(b, ido, c)))
  {
    hide *;
    ghost var x, was := cc[..], ch[..];
    Readiness(cc, ch, ido, ip, l1, k);
    LiteralsShape(ip, ido, r);
    StoreColumn(ido, ip, l1, cc, ch, wa, r, k, q);
    assert cc[..] == x;
    ColumnIsRight(was, x, wa, r, w, ido, ip, l1, k, q);
  }

  lemma ColumnIsRight(was: seq<real>, x: seq<real>, wa: seq<real>, r: Complex, w: Complex,
                      ido: nat, ip: nat, l1: nat, k: nat, q: nat)
    requires BlockFits(was, ido, ip, k) && q < ido && 2 * q <= ido && Fixed(ip)
    requires RealFactors(wa, Halfway(ip, r), w, ido, ip, l1) && Transforms(ip, r, -1, Pow(Conj(w), Prod(l1, ido)))
    ensures
      var now := ColumnDone(was, TurnedColumn(x, wa, Halfway(ip, r), ido, ip, l1, k, q), ido, ip, k, q, r);
      && (forall p: nat :: Canon(ido, ip, q, p) ==> ForwardRight(now, x, Conj(w), ido, ip, l1, k, q, p))
      && forall a: nat, b: nat, c: nat :: b < ido && Canon(ido, ip, b, c) && (a != k || b != q) ==>
           BlockBin(now, Prod(ido, ip), a, Idx(b, ido, c)) == BlockBin(was, Prod(ido, ip), a, Idx(b, ido, c))
  {
    hide Mul, Pow, Conj, Prod, Idx, BlockBin, ForwardRight, BlockFits, RealFactors, Transforms, Halfway, TurnedColumn,
         FixedButterfly, ColumnStored, ForwardBin, Canon;
    var col := TurnedColumn(x, wa, Halfway(ip, r), ido, ip, l1, k, q);
    var y := FixedButterfly(ip, r, -1, col);
    TurnedIsSpread(x, wa, Halfway(ip, r), w, ido, ip, l1, k, q);
    ForwardOutputs(y, x, wa, r, w, ido, ip, l1, k, q);
    StoredAreRight(was, x, Conj(w), ido, ip, l1, k, q, y, Count(ido, ip, q),
                   ColumnStored(was, ido, ip, k, q, y, Count(ido, ip, q)));
    forall p: nat | Canon(ido, ip, q, p)
      ensures p < Count(ido, ip, q)
    {
      CountIsCanon(ido, ip, q, p);
    }
  }

  /** Stored outputs stay right while the rest of their column is stored. */
  lemma {:induction false} StoredAreRight(was: seq<real>, x: seq<real>, v: Complex, ido: nat, ip: nat, l1: nat,
                                          k: nat, q: nat, y: seq<Complex>, n: nat, now: seq<real>)
    requires now == ColumnStored(was, ido, ip, k, q, y, n)
    requires BlockFits(was, ido, ip, k) && q < ido && 2 * q <= ido && ip > 1 && n <= Count(ido, ip, q)
    requires forall p: nat :: p < ip ==> At(y, p) == ForwardBin(x, v, ido, ip, l1, k, q, p)
    ensures forall p: nat :: p < n ==> ForwardRight(now, x, v, ido, ip, l1, k, q, p)
    ensures forall a: nat, b: nat, c: nat :: b < ido && Canon(ido, ip, b, c) && (a != k || b != q) ==>
              BlockBin(now, Prod(ido, ip), a, Idx(b, ido, c)) == BlockBin(was, Prod(ido, ip), a, Idx(b, ido, c))
  {
    hide Prod, Idx, BlockBin, ForwardRight, Canon, ForwardBin, BlockStored, At;
    if n > 0 {
      var p := n - 1;
      var half := ColumnStored(was, ido, ip, k, q, y, p);
      StoredAreRight(was, x, v, ido, ip, l1, k, q, y, p, half);
      CountIsCanon(ido, ip, q, p);
      CanonInside(ido, ip, q, p);
      StoredRight(half, now, x, v, ido, ip, l1, k, q, p, At(y, p));
      forall c: nat | c < n
        ensures ForwardRight(now, x, v, ido, ip, l1, k, q, c)
      {
        CountIsCanon(ido, ip, q, c);
        if c < p { RightKept(half, now, x, v, ido, ip, l1, k, q, c); }
      }
    }
  }

  lemma CanonInside(ido: nat, ip: nat, q: nat, p: nat)
    requires q < ido && Canon(ido, ip, q, p)
    ensures p < ip && Idx(q, ido, p) < Prod(ido, ip)
  {
    IdxBound(q, ido, p, ip);
  }

  lemma ForwardOutputs(y: seq<Complex>, x: seq<real>, wa: seq<real>, r: Complex, w: Complex,
                       ido: nat, ip: nat, l1: nat, k: nat, q: nat)
    requires Fixed(ip) && Transforms(ip, r, -1, Pow(Conj(w), Prod(l1, ido)))
    requires y == FixedButterfly(ip, r, -1, TurnedColumn(x, wa, Halfway(ip, r), ido, ip, l1, k, q))
    requires TurnedColumn(x, wa, Halfway(ip, r), ido, ip, l1, k, q) == Spread(x, Conj(w), ido, ip, l1, k, q)
    ensures ip > 1 && Count(ido, ip, q) <= ip
    ensures forall p: nat :: p < ip ==> At(y, p) == ForwardBin(x, Conj(w), ido, ip, l1, k, q, p)
  {
    hide Pow, Conj, DftAt, TurnedColumn, Spread, FixedButterfly, Halfway, At;
  }

  /** A stored value is right, and the other stored frequencies stay. */
  lemma StoredRight(was: seq<real>, now: seq<real>, x: seq<real>, v: Complex, ido: nat, ip: nat, l1: nat, k: nat,
                    q: nat, p: nat, z: Complex)
    requires q < ido && Canon(ido, ip, q, p) && Idx(q, ido, p) < Prod(ido, ip) &&
             Prod(Prod(ido, ip), k) + Prod(ido, ip) <= |was|
    requires now == BlockStored(was, Prod(ido, ip), k, Idx(q, ido, p), z) && z == ForwardBin(x, v, ido, ip, l1, k, q, p)
    ensures ForwardRight(now, x, v, ido, ip, l1, k, q, p)
    ensures forall a: nat, b: nat, c: nat :: b < ido && Canon(ido, ip, b, c) && (a != k || b != q || c != p) ==>
              BlockBin(now, Prod(ido, ip), a, Idx(b, ido, c)) == BlockBin(was, Prod(ido, ip), a, Idx(b, ido, c))
  {
    hide Prod, Idx, Canon, BlockBin, BlockStored, Kept, ForwardBin;
    BlockStoredBins(was, Prod(ido, ip), k, Idx(q, ido, p), z);
    forall a: nat, b: nat, c: nat | b < ido && Canon(ido, ip, b, c) && (a != k || b != q || c != p)
      ensures BlockBin(now, Prod(ido, ip), a, Idx(b, ido, c)) == BlockBin(was, Prod(ido, ip), a, Idx(b, ido, c))
    {
      CanonInside(ido, ip, b, c);
      if a == k { CanonApart(ido, ip, q, p, b, c); }
    }
  }

  lemma RightKept(was: seq<real>, now: seq<real>, x: seq<real>, v: Complex, ido: nat, ip: nat, l1: nat, k: nat, q: nat,
                  p: nat)
    requires ForwardRight(was, x, v, ido, ip, l1, k, q, p)
    requires BlockBin(now, Prod(ido, ip), k, Idx(q, ido, p)) == BlockBin(was, Prod(ido, ip), k, Idx(q, ido, p))
    ensures ForwardRight(now, x, v, ido, ip, l1, k, q, p)
  {}

  /** Which columns are done before column `(k, q)` of a phase: first the zero frequencies, then the
      middle ones, then the others. */
  predicate Reached(ido: nat, phase: nat, k: nat, q: nat, a: nat, b: nat) {
    if b == 0 then phase > 0 || a < k
    else if 2 * b == ido then phase > 1 || (phase == 1 && a < k)
    else phase == 2 && (a < k || (a == k && b < q))
  }

  ghost predicate ForwardDone(y: seq<real>, x: seq<real>, v: Complex, ido: nat, ip: nat, l1: nat, phase: nat, k: nat,
                              q: nat)
  {
    forall a: nat, b: nat, c: nat :: a < l1 && b < ido && Canon(ido, ip, b, c) && Reached(ido, phase, k, q, a, b) ==>
      ForwardRight(y, x, v, ido, ip, l1, a, b, c)
  }

  lemma ForwardDoneStep(was: seq<real>, now: seq<real>, x: seq<real>, v: Complex, ido: nat, ip: nat, l1: nat,
                        phase: nat, k: nat, q: nat, col: nat, k': nat, q': nat)
    requires ForwardDone(was, x, v, ido, ip, l1, phase, k, q) && k < l1 && col < ido
    requires forall p: nat :: Canon(ido, ip, col, p) ==> ForwardRight(now, x, v, ido, ip, l1, k, col, p)
    requires forall a: nat, b: nat, c: nat :: b < ido && Canon(ido, ip, b, c) && (a != k || b != col) ==>
               BlockBin(now, Prod(ido, ip), a, Idx(b, ido, c)) == BlockBin(was, Prod(ido, ip), a, Idx(b, ido, c))
    requires forall a: nat, b: nat :: a < l1 && b < ido && 2 * b <= ido && Reached(ido, phase, k', q', a, b) ==>
               Reached(ido, phase, k, q, a, b) || (a == k && b == col)
    ensures ForwardDone(now, x, v, ido, ip, l1, phase, k', q')
  {
    hide Prod, Idx, BlockBin, ForwardRight, Reached;
    forall a: nat, b: nat, c: nat | a < l1 && b < ido && Canon(ido, ip, b, c) && Reached(ido, phase, k', q', a, b)
      ensures ForwardRight(now, x, v, ido, ip, l1, a, b, c)
    {
      if a != k || b != col { RightKept(was, now, x, v, ido, ip, l1, a, b, c); }
    }
  }

  /** The loops every hard-coded forward pass shares, around its own butterfly. */
  method FixedForward(ido: nat, l1: nat, ip: nat, cc: array<real>, ch: array<real>, wa: seq<real>, r: Complex,
                      ghost w: Complex)
    requires cc != ch && cc.Length == ch.Length == Times3(l1, ip, ido) && ip > 1 && ido > 0
    requires FullCircle(w, Times3(l1, ip, ido))
    requires LiteralsFit(ip, ido, r)
    requires RealFactors(wa, Halfway(ip, r), w, ido, ip, l1) && Transforms(ip, r, -1, Pow(Conj(w), Prod(l1, ido)))
    modifies ch
    ensures IsRealForward(cc[..], ch[..], Conj(w), ido, ip, l1)
  {
    hide Prod, Times3, Pow, Mul, Conj, BlockBin, ForwardRight, RealFactors, Transforms, FullCircle, IsRealForward,
         Canon, Idx,
         LiteralsFit, Halfway;
    ghost var x, v := cc[..], Conj(w);
    for k := 0 to l1
      invariant cc[..] == x && ForwardDone(ch[..], x, v, ido, ip, l1, 0, k, 0)
    {
      ghost var was := ch[..];
      ForwardColumn(ido, l1, ip, cc, ch, wa, r, k, 0, w);
      ForwardDoneStep(was, ch[..], x, v, ido, ip, l1, 0, k, 0, 0, k + 1, 0);
    }
    if ido % 2 == 0 {
      for k := 0 to l1
        invariant cc[..] == x && ForwardDone(ch[..], x, v, ido, ip, l1, 1, k, 0)
      {
        ghost var was := ch[..];
        ForwardColumn(ido, l1, ip, cc, ch, wa, r, k, ido / 2, w);
        ForwardDoneStep(was, ch[..], x, v, ido, ip, l1, 1, k, 0, ido / 2, k + 1, 0);
      }
    }
    assert ForwardDone(ch[..], x, v, ido, ip, l1, 2, 0, 0);
    for k := 0 to l1
      invariant cc[..] == x && ForwardDone(ch[..], x, v, ido, ip, l1, 2, k, 0)
    {
      ForwardRowStarts(ch[..], x, v, ido, ip, l1, k);
      for q := 1 to (ido + 1) / 2
        invariant cc[..] == x && ForwardDone(ch[..], x, v, ido, ip, l1, 2, k, q)
      {
        ghost var was := ch[..];
        ForwardColumn(ido, l1, ip, cc, ch, wa, r, k, q, w);
        ForwardDoneStep(was, ch[..], x, v, ido, ip, l1, 2, k, q, q, k, q + 1);
      }
      ForwardRowEnds(ch[..], x, v, ido, ip, l1, k, if ido > 1 then (ido + 1) / 2 else 1);
    }
    ForwardAllDone(ch[..], x, w, ido, ip, l1);
  }

  lemma ForwardRowStarts(y: seq<real>, x: seq<real>, v: Complex, ido: nat, ip: nat, l1: nat, k: nat)
    requires ForwardDone(y, x, v, ido, ip, l1, 2, k, 0)
    ensures ForwardDone(y, x, v, ido, ip, l1, 2, k, 1)
  {}

  lemma ForwardRowEnds(y: seq<real>, x: seq<real>, v: Complex, ido: nat, ip: nat, l1: nat, k: nat, q: nat)
    requires ForwardDone(y, x, v, ido, ip, l1, 2, k, q) && 2 * q >= ido
    ensures ForwardDone(y, x, v, ido, ip, l1, 2, k + 1, 0)
  {
    hide ForwardRight;
  }

  lemma ForwardAllDone(y: seq<real>, x: seq<real>, w: Complex, ido: nat, ip: nat, l1: nat)
    requires |x| == |y| == Times3(l1, ip, ido) && FullCircle(w, Times3(l1, ip, ido))
    requires ForwardDone(y, x, Conj(w), ido, ip, l1, 2, l1, 0)
    ensures IsRealForward(x, y, Conj(w), ido, ip, l1)
  {
    CircleBack(w, Times3(l1, ip, ido));
    hide Mul, Pow, Conj, Times3, ForwardRight;
    ForwardFromCanon(y, x, Conj(w), ido, ip, l1);
  }

  // ---------- backward ----------

  /** One column: its outputs, turned by their factors, go to the same frequency of every part. */
  method BackwardColumn(ido: nat, l1: nat, ip: nat, cc: array<real>, ch: array<real>, wa: seq<real>, r: Complex,
                        k: nat, q: nat, ghost w: Complex)
    requires Ready(cc, ch, ido, ip, l1, k) && LiteralsFit(ip, ido, r) && q < ido && 2 * q <= ido
    requires RealFactors(wa, Halfway(ip, r), w, ido, ip, l1) && Transforms(ip, r, 1, Pow(w, Prod(l1, ido)))
    modifies ch
    ensures forall j: nat :: j < ip ==> BackwardRight(ch[..], cc[..], w, ido, ip, l1, k, j, q)
    ensures forall a: nat, j: nat, b: nat :: a < l1 && j < ip && b < ido && 2 * b <= ido && (a != k || b != q) ==>
              BlockBin(ch[..], ido, Idx(a, l1, j), b) == old(BlockBin(ch[..], ido, Idx(a, l1, j), b))
  {
    hide *;
    ghost var x, was := cc[..], ch[..];
    Readiness(cc, ch, ido, ip, l1, k);
    LiteralsShape(ip, ido, r);
    StoreParts(ido, ip, l1, cc, ch, wa, r, k, q);
    assert cc[..] == x;
    PartsAreRight(was, x, wa, r, w, ido, ip, l1, k, q);
  }

  lemma PartsAreRight(was: seq<real>, x: seq<real>, wa: seq<real>, r: Complex, w: Complex,
                      ido: nat, ip: nat, l1: nat, k: nat, q: nat)
    requires |was| == Times3(l1, ip, ido) && k < l1 && q < ido && 2 * q <= ido && Fixed(ip)
    requires RealFactors(wa, Halfway(ip, r), w, ido, ip, l1) && Transforms(ip, r, 1, Pow(w, Prod(l1, ido)))
    ensures
      var now := PartsDone(was, Bins(x, ido, ip, k, q), wa, ido, ip, l1, k, q, r);
      && (forall j: nat :: j < ip ==> BackwardRight(now, x, w, ido, ip, l1, k, j, q))
      && forall a: nat, j: nat, b: nat :: a < l1 && j < ip && b < ido && 2 * b <= ido && (a != k || b != q) ==>
           BlockBin(now, ido, Idx(a, l1, j), b) == BlockBin(was, ido, Idx(a, l1, j), b)
  {
    hide Mul, Pow, Prod, Idx, Times3, BlockBin, BackwardRight, RealFactors, Transforms, Halfway, Bins, FixedButterfly,
         PartsStored, BackwardBin, TurnedOutputs;
    var y := FixedButterfly(ip, r, 1, Bins(x, ido, ip, k, q));
    BackwardOutputs(y, x, wa, r, w, ido, ip, l1, k, q);
    var z := TurnedOutputs(y, wa, Halfway(ip, r), ido, q);
    StoredPartsAreRight(was, x, w, ido, ip, l1, k, q, z, ip, PartsStored(was, ido, l1, k, q, z, ip));
  }

  lemma {:induction false} StoredPartsAreRight(was: seq<real>, x: seq<real>, w: Complex, ido: nat, ip: nat, l1: nat,
                                               k: nat, q: nat, z: seq<Complex>, n: nat, now: seq<real>)
    requires now == PartsStored(was, ido, l1, k, q, z, n)
    requires |was| == Times3(l1, ip, ido) && k < l1 && q < ido && 2 * q <= ido && n <= ip
    requires forall j: nat :: j < ip ==> At(z, j) == BackwardBin(x, w, ido, ip, l1, k, j, q)
    ensures forall j: nat :: j < n ==> BackwardRight(now, x, w, ido, ip, l1, k, j, q)
    ensures forall a: nat, j: nat, b: nat :: a < l1 && j < ip && b < ido && 2 * b <= ido && (a != k || b != q) ==>
              BlockBin(now, ido, Idx(a, l1, j), b) == BlockBin(was, ido, Idx(a, l1, j), b)
  {
    hide Prod, Idx, Times3, BlockBin, BackwardRight, BackwardBin, BlockStored, At;
    if n > 0 {
      var j := n - 1;
      var half := PartsStored(was, ido, l1, k, q, z, j);
      StoredPartsAreRight(was, x, w, ido, ip, l1, k, q, z, j, half);
      PartInside(l1, ip, ido, k, j);
      PartStored(half, now, x, w, ido, ip, l1, k, j, q, At(z, j));
      forall c: nat | c < n
        ensures BackwardRight(now, x, w, ido, ip, l1, k, c, q)
      {
        if c < j { PartKept(half, now, x, w, ido, ip, l1, k, c, q); }
      }
    }
  }

  lemma BackwardOutputs(y: seq<Complex>, x: seq<real>, wa: seq<real>, r: Complex, w: Complex,
                        ido: nat, ip: nat, l1: nat, k: nat, q: nat)
    requires y == FixedButterfly(ip, r, 1, Bins(x, ido, ip, k, q)) && Transforms(ip, r, 1, Pow(w, Prod(l1, ido)))
    requires RealFactors(wa, Halfway(ip, r), w, ido, ip, l1) && q < ido && 2 * q <= ido && Fixed(ip)
    ensures forall j: nat :: j < ip ==>
              At(TurnedOutputs(y, wa, Halfway(ip, r), ido, q), j) == BackwardBin(x, w, ido, ip, l1, k, j, q)
  {
    FixedLength(ip, r, 1, Bins(x, ido, ip, k, q));
    hide Pow, Mul, DftAt, Bins, Factor, Times3, Halfway, FixedButterfly;
    forall j: nat | j < ip
      ensures At(TurnedOutputs(y, wa, Halfway(ip, r), ido, q), j) == BackwardBin(x, w, ido, ip, l1, k, j, q)
    {
      assert At(TurnedOutputs(y, wa, Halfway(ip, r), ido, q), j)
          == Mul(Factor(wa, Halfway(ip, r), ido, q, j), At(y, j));
      assert At(y, j) == DftAt(Bins(x, ido, ip, k, q), Pow(w, Prod(l1, ido)), j);
    }
  }

  lemma PartStored(was: seq<real>, now: seq<real>, x: seq<real>, w: Complex, ido: nat, ip: nat, l1: nat, k: nat, j: nat,
                   q: nat, z: Complex)
    requires k < l1 && j < ip && q < ido && 2 * q <= ido && Prod(ido, Idx(k, l1, j)) + ido <= |was|
    requires now == BlockStored(was, ido, Idx(k, l1, j), q, z) && z == BackwardBin(x, w, ido, ip, l1, k, j, q)
    ensures BackwardRight(now, x, w, ido, ip, l1, k, j, q)
    ensures forall a: nat, c: nat, b: nat ::
              a < l1 && c < ip && b < ido && 2 * b <= ido && (a != k || c != j || b != q) ==>
              BlockBin(now, ido, Idx(a, l1, c), b) == BlockBin(was, ido, Idx(a, l1, c), b)
  {
    hide Prod, Idx, BlockBin, BlockStored, Kept, BackwardBin;
    BlockStoredBins(was, ido, Idx(k, l1, j), q, z);
    forall a: nat, c: nat, b: nat | a < l1 && c < ip && b < ido && 2 * b <= ido && (a != k || c != j || b != q)
      ensures BlockBin(now, ido, Idx(a, l1, c), b) == BlockBin(was, ido, Idx(a, l1, c), b)
    {
      if Idx(a, l1, c) == Idx(k, l1, j) { IdxInjective(a, l1, c, k, j); }
    }
  }

  lemma PartKept(was: seq<real>, now: seq<real>, x: seq<real>, w: Complex, ido: nat, ip: nat, l1: nat, k: nat, j: nat,
                 q: nat)
    requires BackwardRight(was, x, w, ido, ip, l1, k, j, q)
    requires BlockBin(now, ido, Idx(k, l1, j), q) == BlockBin(was, ido, Idx(k, l1, j), q)
    ensures BackwardRight(now, x, w, ido, ip, l1, k, j, q)
  {}

  ghost predicate BackwardDone(y: seq<real>, x: seq<real>, w: Complex, ido: nat, ip: nat, l1: nat, phase: nat, k: nat,
                               q: nat)
  {
    forall a: nat, j: nat, b: nat :: a < l1 && j < ip && b < ido && 2 * b <= ido && Reached(ido, phase, k, q, a, b) ==>
      BackwardRight(y, x, w, ido, ip, l1, a, j, b)
  }

  lemma BackwardDoneStep(was: seq<real>, now: seq<real>, x: seq<real>, w: Complex, ido: nat, ip: nat, l1: nat,
                         phase: nat, k: nat, q: nat, col: nat, k': nat, q': nat)
    requires BackwardDone(was, x, w, ido, ip, l1, phase, k, q) && k < l1 && col < ido
    requires forall j: nat :: j < ip ==> BackwardRight(now, x, w, ido, ip, l1, k, j, col)
    requires forall a: nat, j: nat, b: nat :: a < l1 && j < ip && b < ido && 2 * b <= ido && (a != k || b != col) ==>
               BlockBin(now, ido, Idx(a, l1, j), b) == BlockBin(was, ido, Idx(a, l1, j), b)
    requires forall a: nat, b: nat :: a < l1 && b < ido && 2 * b <= ido && Reached(ido, phase, k', q', a, b) ==>
               Reached(ido, phase, k, q, a, b) || (a == k && b == col)
    ensures BackwardDone(now, x, w, ido, ip, l1, phase, k', q')
  {
    hide Prod, Idx, BlockBin, BackwardRight, Reached;
    forall a: nat, j: nat, b: nat | a < l1 && j < ip && b < ido && 2 * b <= ido && Reached(ido, phase, k', q', a, b)
      ensures BackwardRight(now, x, w, ido, ip, l1, a, j, b)
    {
      if a != k || b != col { PartKept(was, now, x, w, ido, ip, l1, a, j, b); }
    }
  }

  /** The loops every hard-coded backward pass shares, around its own butterfly. */
  method FixedBackward(ido: nat, l1: nat, ip: nat, cc: array<real>, ch: array<real>, wa: seq<real>, r: Complex,
                       ghost w: Complex)
    requires cc != ch && cc.Length == ch.Length == Times3(l1, ip, ido) && ip > 0 && ido > 0
    requires FullCircle(w, Times3(l1, ip, ido))
    requires LiteralsFit(ip, ido, r)
    requires RealFactors(wa, Halfway(ip, r), w, ido, ip, l1) && Transforms(ip, r, 1, Pow(w, Prod(l1, ido)))
    modifies ch
    ensures IsRealBackward(cc[..], ch[..], w, ido, ip, l1)
  {
    hide Prod, Times3, Pow, Mul, Conj, BlockBin, BackwardRight, RealFactors, Transforms, FullCircle, IsRealBackward,
         Idx,
         LiteralsFit, Halfway;
    ghost var x := cc[..];
    for k := 0 to l1
      invariant cc[..] == x && BackwardDone(ch[..], x, w, ido, ip, l1, 0, k, 0)
    {
      ghost var was := ch[..];
      BackwardColumn(ido, l1, ip, cc, ch, wa, r, k, 0, w);
      assert cc[..] == x;
      BackwardDoneStep(was, ch[..], x, w, ido, ip, l1, 0, k, 0, 0, k + 1, 0);
    }
    if ido % 2 == 0 {
      for k := 0 to l1
        invariant cc[..] == x && BackwardDone(ch[..], x, w, ido, ip, l1, 1, k, 0)
      {
        ghost var was := ch[..];
        BackwardColumn(ido, l1, ip, cc, ch, wa, r, k, ido / 2, w);
        assert cc[..] == x;
        BackwardDoneStep(was, ch[..], x, w, ido, ip, l1, 1, k, 0, ido / 2, k + 1, 0);
      }
    }
    assert BackwardDone(ch[..], x, w, ido, ip, l1, 2, 0, 0);
    for k := 0 to l1
      invariant cc[..] == x && BackwardDone(ch[..], x, w, ido, ip, l1, 2, k, 0)
    {
      BackwardRowStarts(ch[..], x, w, ido, ip, l1, k);
      for q := 1 to (ido + 1) / 2
        invariant cc[..] == x && BackwardDone(ch[..], x, w, ido, ip, l1, 2, k, q)
      {
        ghost var was := ch[..];
        BackwardColumn(ido, l1, ip, cc, ch, wa, r, k, q, w);
        assert cc[..] == x;
        BackwardDoneStep(was, ch[..], x, w, ido, ip, l1, 2, k, q, q, k, q + 1);
      }
      BackwardRowEnds(ch[..], x, w, ido, ip, l1, k, if ido > 1 then (ido + 1) / 2 else 1);
    }
    BackwardAllDone(ch[..], x, w, ido, ip, l1);
  }

  lemma BackwardRowStarts(y: seq<real>, x: seq<real>, w: Complex, ido: nat, ip: nat, l1: nat, k: nat)
    requires BackwardDone(y, x, w, ido, ip, l1, 2, k, 0)
    ensures BackwardDone(y, x, w, ido, ip, l1, 2, k, 1)
  {}

  lemma BackwardRowEnds(y: seq<real>, x: seq<real>, w: Complex, ido: nat, ip: nat, l1: nat, k: nat, q: nat)
    requires BackwardDone(y, x, w, ido, ip, l1, 2, k, q) && 2 * q >= ido
    ensures BackwardDone(y, x, w, ido, ip, l1, 2, k + 1, 0)
  {
    hide BackwardRight;
  }

  lemma BackwardAllDone(y: seq<real>, x: seq<real>, w: Complex, ido: nat, ip: nat, l1: nat)
    requires |x| == |y| == Times3(l1, ip, ido) && FullCircle(w, Times3(l1, ip, ido)) && ip > 0
    requires BackwardDone(y, x, w, ido, ip, l1, 2, l1, 0)
    ensures IsRealBackward(x, y, w, ido, ip, l1)
  {
    hide Mul, Pow, Conj, Times3, BackwardRight;
    BackwardFromLower(y, x, w, ido, ip, l1);
  }

  // ---------- the radices ----------

  /** The factors a pass finds in its tables: those below the middle frequency. */
  ghost predicate TableFactors(wa: seq<real>, w: Complex, ido: nat, ip: nat, l1: nat) {
    forall q: nat, j: nat :: 0 < q && 2 * q < ido && 0 < j < ip ==> FactorAt(wa, ido, q, j) == Pow(w, Times3(l1, q, j))
  }

  lemma AllFactors(wa: seq<real>, halfway: seq<Complex>, w: Complex, ido: nat, ip: nat, l1: nat)
    requires TableFactors(wa, w, ido, ip, l1)
    requires ido % 2 == 0 ==> forall j: nat :: 0 < j < ip ==> At(halfway, j) == Pow(w, Times3(l1, ido / 2, j))
    ensures RealFactors(wa, halfway, w, ido, ip, l1)
  {
    forall q: nat, j: nat | q < ido && 2 * q <= ido && j < ip
      ensures Factor(wa, halfway, ido, q, j) == Pow(w, Times3(l1, q, j))
    {
      if q == 0 || j == 0 { NoTurn(w, l1, q, j); }
      hide Pow, Times3, FactorAt;
    }
  }

  /** The literals of the middle frequency: powers of half a column's root. */
  lemma HalfwayPower(w: Complex, l1: nat, ido: nat, j: nat)
    ensures Pow(w, Times3(l1, ido / 2, j)) == Pow(Pow(w, Prod(l1, ido / 2)), j)
  {
    PowMul(w, Prod(l1, ido / 2), j);
    assert Times3(l1, ido / 2, j) == Prod(l1, ido / 2) * j;
    hide Pow;
  }

  lemma QuarterOf(w: Complex, l1: nat, ido: nat)
    requires PrincipalRoot(w, Times3(l1, 2, ido)) && ido % 2 == 0
    ensures Pow(w, Prod(l1, ido / 2)) == I
  {
    assert Times3(l1, 2, ido) == 4 * Prod(l1, ido / 2) by {
      assert ido == 2 * (ido / 2);
      assert l1 * 2 * ido == 4 * (l1 * (ido / 2));
    }
  }

  lemma RootCircle(w: Complex, n: nat)
    requires UnitRoot(w, n)
    ensures FullCircle(w, n)
  {}

  lemma TwoTransforms(r: Complex, w: Complex, sign: int, l1: nat, ido: nat)
    requires UnitRoot(w, Times3(l1, 2, ido))
    ensures Transforms(2, r, sign, Pow(Signed(w, sign), Prod(l1, ido)))
  {
    var v := Pow(Signed(w, sign), Prod(l1, ido));
    ColumnRoot(w, sign, l1, 2, ido);
    hide DftAt, UnitRoot, Butterfly2, Pow, Signed, Prod, Times3;
    forall col: seq<Complex>, p: nat | |col| == 2 && p < 2
      ensures At(FixedButterfly(2, r, sign, col), p) == DftAt(col, v, p)
    {
      Butterfly2Correct(col, v, p);
    }
  }

  lemma TwoHalfway(w: Complex, l1: nat, ido: nat, r: Complex)
    requires PrincipalRoot(w, Times3(l1, 2, ido))
    ensures ido % 2 == 0 ==> forall j: nat :: 0 < j < 2 ==> At(Halfway(2, r), j) == Pow(w, Times3(l1, ido / 2, j))
  {
    if ido % 2 == 0 {
      QuarterOf(w, l1, ido);
      HalfwayPower(w, l1, ido, 1);
      SmallPowers(I);
      hide Pow, Times3, Prod;
    }
  }

  /** radf2. */
  method RadF2(ido: nat, l1: nat, cc: array<real>, ch: array<real>, wa: seq<real>, ghost w: Complex)
    requires cc != ch && cc.Length == ch.Length == Times3(l1, 2, ido) && ido > 0
    requires PrincipalRoot(w, Times3(l1, 2, ido)) && TableFactors(wa, w, ido, 2, l1)
    modifies ch
    ensures IsRealForward(cc[..], ch[..], Conj(w), ido, 2, l1)
  {
    TwoHalfway(w, l1, ido, ONE);
    RootCircle(w, Times3(l1, 2, ido));
    TwoTransforms(ONE, w, -1, l1, ido);
    AllFactors(wa, Halfway(2, ONE), w, ido, 2, l1);
    hide Pow, Mul, Conj, Prod, Times3, FullCircle, RealFactors, Transforms, IsRealForward, UnitRoot, PrincipalRoot,
         Halfway;
    FixedForward(ido, l1, 2, cc, ch, wa, ONE, w);
  }

  /** radb2. */
  method RadB2(ido: nat, l1: nat, cc: array<real>, ch: array<real>, wa: seq<real>, ghost w: Complex)
    requires cc != ch && cc.Length == ch.Length == Times3(l1, 2, ido) && ido > 0
    requires PrincipalRoot(w, Times3(l1, 2, ido)) && TableFactors(wa, w, ido, 2, l1)
    modifies ch
    ensures IsRealBackward(cc[..], ch[..], w, ido, 2, l1)
  {
    TwoHalfway(w, l1, ido, ONE);
    RootCircle(w, Times3(l1, 2, ido));
    TwoTransforms(ONE, w, 1, l1, ido);
    AllFactors(wa, Halfway(2, ONE), w, ido, 2, l1);
    hide Pow, Mul, Conj, Prod, Times3, FullCircle, RealFactors, Transforms, IsRealBackward, UnitRoot, PrincipalRoot,
         Halfway;
    FixedBackward(ido, l1, 2, cc, ch, wa, ONE, w);
  }

  lemma FourTransforms(r: Complex, w: Complex, sign: int, l1: nat, ido: nat)
    requires PrincipalRoot(w, Times3(l1, 4, ido))
    ensures Transforms(4, r, sign, Pow(Signed(w, sign), Prod(l1, ido)))
  {
    var v := Pow(Signed(w, sign), Prod(l1, ido));
    QuarterRoot(w, sign, l1, ido);
    hide DftAt, Pow, Prod, Signed, Times3, PrincipalRoot, Butterfly4;
    forall col: seq<Complex>, p: nat | |col| == 4 && p < 4
      ensures At(FixedButterfly(4, r, sign, col), p) == DftAt(col, v, p)
    {
      Butterfly4Correct(col, sign, p);
    }
  }

  lemma FourHalfway(w: Complex, l1: nat, ido: nat, e: Complex)
    requires PrincipalRoot(w, Times3(l1, 4, ido)) && (ido % 2 == 0 ==> e == Pow(w, Prod(l1, ido / 2)))
    ensures ido % 2 == 0 ==> forall j: nat :: 0 < j < 4 ==> At(Halfway(4, e), j) == Pow(w, Times3(l1, ido / 2, j))
  {
    if ido % 2 == 0 {
      assert Times3(l1, 4, ido) == 4 * Prod(l1, ido) && Prod(l1, ido) == 2 * Prod(l1, ido / 2) by {
        assert ido == 2 * (ido / 2);
        assert l1 * ido == 2 * (l1 * (ido / 2));
      }
      PowAdd(w, Prod(l1, ido / 2), Prod(l1, ido / 2));
      HalfwayPower(w, l1, ido, 1);
      HalfwayPower(w, l1, ido, 2);
      HalfwayPower(w, l1, ido, 3);
      SmallPowers(e);
      hide Pow, Times3, Prod, Mul;
    }
  }

  /** radf4; `hsqt2` stands for its literal. */
  method RadF4(ido: nat, l1: nat, cc: array<real>, ch: array<real>, wa: seq<real>, hsqt2: real, ghost w: Complex)
    requires cc != ch && cc.Length == ch.Length == Times3(l1, 4, ido) && ido > 0
    requires PrincipalRoot(w, Times3(l1, 4, ido)) && TableFactors(wa, w, ido, 4, l1)
    requires ido % 2 == 0 ==> Complex(hsqt2, hsqt2) == Pow(w, Prod(l1, ido / 2))
    modifies ch
    ensures IsRealForward(cc[..], ch[..], Conj(w), ido, 4, l1)
  {
    var e := Complex(hsqt2, hsqt2);
    FourHalfway(w, l1, ido, e);
    RootCircle(w, Times3(l1, 4, ido));
    FourTransforms(e, w, -1, l1, ido);
    AllFactors(wa, Halfway(4, e), w, ido, 4, l1);
    hide Pow, Mul, Conj, Prod, Times3, FullCircle, RealFactors, Transforms, IsRealForward, UnitRoot, PrincipalRoot,
         Halfway;
    FixedForward(ido, l1, 4, cc, ch, wa, e, w);
  }

  /** radb4; its `sqrt2` is twice `hsqt2`. */
  method RadB4(ido: nat, l1: nat, cc: array<real>, ch: array<real>, wa: seq<real>, hsqt2: real, ghost w: Complex)
    requires cc != ch && cc.Length == ch.Length == Times3(l1, 4, ido) && ido > 0
    requires PrincipalRoot(w, Times3(l1, 4, ido)) && TableFactors(wa, w, ido, 4, l1)
    requires ido % 2 == 0 ==> Complex(hsqt2, hsqt2) == Pow(w, Prod(l1, ido / 2))
    modifies ch
    ensures IsRealBackward(cc[..], ch[..], w, ido, 4, l1)
  {
    var e := Complex(hsqt2, hsqt2);
    FourHalfway(w, l1, ido, e);
    RootCircle(w, Times3(l1, 4, ido));
    FourTransforms(e, w, 1, l1, ido);
    AllFactors(wa, Halfway(4, e), w, ido, 4, l1);
    hide Pow, Mul, Conj, Prod, Times3, FullCircle, RealFactors, Transforms, IsRealBackward, UnitRoot, PrincipalRoot,
         Halfway;
    FixedBackward(ido, l1, 4, cc, ch, wa, e, w);
  }

  lemma OddTransforms(r: Complex, w: Complex, sign: int, l1: nat, ip: nat, ido: nat)
    requires UnitRoot(w, Times3(l1, ip, ido)) && r == Pow(w, Prod(l1, ido)) && (ip == 3 || ip == 5)
    ensures Transforms(ip, r, sign, Pow(Signed(w, sign), Prod(l1, ido)))
  {
    var tw, v := SignedAll(Literals(r, ip), sign), Pow(Signed(w, sign), Prod(l1, ido));
    var rows := if ip == 3 then ROWS_3 else ROWS_5;
    HardCodedRowsFoldRightly();
    SignedLiterals(r, ip, sign);
    SignedPow(w, sign, Prod(l1, ido));
    ColumnRoot(w, sign, l1, ip, ido);
    assert Mul(v, Conj(v)) == ONE && Pow(v, ip) == ONE && HalfTable(tw, v, ip);
    hide Pow, Mul, Conj, Signed, Prod, Times3, Literals, SignedAll, OddButterfly, HalfTable, DftAt, FoldsRightly,
         UnitRoot;
    forall col: seq<Complex>, p: nat | |col| == ip && p < ip
      ensures At(FixedButterfly(ip, r, sign, col), p) == DftAt(col, v, p)
    {
      OddButterflyCorrect(col, tw, rows, v, p);
    }
  }

  /** radf3 and radf5: radix `ip`, its literals the parts of the root `r` of a column (and of its square). */
  method RadFOdd(ido: nat, l1: nat, ip: nat, r: Complex, cc: array<real>, ch: array<real>, wa: seq<real>,
                 ghost w: Complex)
    requires cc != ch && cc.Length == ch.Length == Times3(l1, ip, ido) && ido % 2 == 1 && (ip == 3 || ip == 5)
    requires UnitRoot(w, Times3(l1, ip, ido)) && TableFactors(wa, w, ido, ip, l1) && r == Pow(w, Prod(l1, ido))
    modifies ch
    ensures IsRealForward(cc[..], ch[..], Conj(w), ido, ip, l1)
  {
    RootCircle(w, Times3(l1, ip, ido));
    OddTransforms(r, w, -1, l1, ip, ido);
    AllFactors(wa, Halfway(ip, r), w, ido, ip, l1);
    hide Pow, Mul, Conj, Prod, Times3, FullCircle, RealFactors, Transforms, IsRealForward, UnitRoot, Halfway;
    FixedForward(ido, l1, ip, cc, ch, wa, r, w);
  }

  /** radb3 and radb5. */
  method RadBOdd(ido: nat, l1: nat, ip: nat, r: Complex, cc: array<real>, ch: array<real>, wa: seq<real>,
                 ghost w: Complex)
    requires cc != ch && cc.Length == ch.Length == Times3(l1, ip, ido) && ido % 2 == 1 && (ip == 3 || ip == 5)
    requires UnitRoot(w, Times3(l1, ip, ido)) && TableFactors(wa, w, ido, ip, l1) && r == Pow(w, Prod(l1, ido))
    modifies ch
    ensures IsRealBackward(cc[..], ch[..], w, ido, ip, l1)
  {
    RootCircle(w, Times3(l1, ip, ido));
    OddTransforms(r, w, 1, l1, ip, ido);
    AllFactors(wa, Halfway(ip, r), w, ido, ip, l1);
    hide Pow, Mul, Conj, Prod, Times3, FullCircle, RealFactors, Transforms, IsRealBackward, UnitRoot, Halfway;
    FixedBackward(ido, l1, ip, cc, ch, wa, r, w);
  }
}
