/** The bodies of the loops of radb2, radb3, radb4 and radb5: one column each, assignment by assignment,
    proved to store the turned outputs of the short transform of the column's frequencies. */
module BackwardColumns {
  import opened Basics
  import opened Complexes
  import opened Dft
  import opened RadixPass
  import opened Butterflies
  import opened RealSpectra
  import opened RealStages
  import opened RealColumns

  // ---------- the frequencies of a column ----------

  lemma Mirrored(x: seq<real>, ido: nat, ip: nat, k: nat, q: nat, p: nat, q': nat, p': nat)
    requires q < ido && p < ip && Idx(q, ido, p) + Idx(q', ido, p') == Prod(ido, ip) && Idx(q', ido, p') > 0
    requires Idx(q, ido, p) > 0
    ensures BlockBin(x, Prod(ido, ip), k, Idx(q, ido, p)) == Conj(BlockBin(x, Prod(ido, ip), k, Idx(q', ido, p')))
  {
    hide Prod, Idx;
    BinMirror(x, Prod(Prod(ido, ip), k), Prod(ido, ip), Idx(q', ido, p'));
  }

  lemma ZeroMirror(ido: nat, ip: nat, p: nat)
    requires ido > 0 && 0 < p < ip
    ensures Idx(0, ido, p) + Idx(0, ido, ip - p) == Prod(ido, ip) && Idx(0, ido, p) > 0 && Idx(0, ido, ip - p) > 0
  {
    assert ido * p + ido * (ip - p) == ido * ip;
    MulMonotone(ido, 1, p);
    MulMonotone(ido, 1, ip - p);
  }

  lemma MiddleMirror(ido: nat, ip: nat, q: nat, p: nat)
    requires 0 < 2 * q == ido && p < ip
    ensures Idx(q, ido, p) + Idx(q, ido, ip - 1 - p) == Prod(ido, ip)
    ensures Idx(q, ido, p) > 0 && Idx(q, ido, ip - 1 - p) > 0
  {
    assert ido * p + ido * (ip - 1 - p) == ido * (ip - 1);
    assert ido * (ip - 1) == ido * ip - ido;
  }

  /** The frequencies that are multiples of `ido`: stored ones and mirror images. */
  function ZeroBin(x: seq<real>, ido: nat, ip: nat, k: nat, p: nat): Complex
    requires ido > 0
  {
    if p == 0 then Complex(CellAt(x, ido, ip, 0, 0, k), 0.0)
    else if 2 * p < ip then Complex(CellAt(x, ido, ip, ido - 1, 2 * p - 1, k), CellAt(x, ido, ip, 0, 2 * p, k))
    else if 2 * p == ip then Complex(CellAt(x, ido, ip, ido - 1, 2 * p - 1, k), 0.0)
    else if p < ip then
      Complex(CellAt(x, ido, ip, ido - 1, 2 * (ip - p) - 1, k), -CellAt(x, ido, ip, 0, 2 * (ip - p), k))
    else ZERO
  }

  function MiddleBin(x: seq<real>, ido: nat, ip: nat, k: nat, p: nat): Complex
    requires ido > 0
  {
    if 2 * p + 1 < ip then Complex(CellAt(x, ido, ip, ido - 1, 2 * p, k), CellAt(x, ido, ip, 0, 2 * p + 1, k))
    else if 2 * p + 1 == ip then Complex(CellAt(x, ido, ip, ido - 1, 2 * p, k), 0.0)
    else if p < ip then
      Complex(CellAt(x, ido, ip, ido - 1, 2 * (ip - 1 - p), k), -CellAt(x, ido, ip, 0, 2 * (ip - 1 - p) + 1, k))
    else ZERO
  }

  function PairBin(x: seq<real>, ido: nat, ip: nat, k: nat, i: nat, p: nat): Complex
    requires 2 <= i < ido
  {
    if 2 * p < ip then Complex(CellAt(x, ido, ip, i - 1, 2 * p, k), CellAt(x, ido, ip, i, 2 * p, k))
    else if p < ip then
      Complex(CellAt(x, ido, ip, ido - i - 1, 2 * (ip - p) - 1, k), -CellAt(x, ido, ip, ido - i, 2 * (ip - p) - 1, k))
    else ZERO
  }

  function ZeroBins(x: seq<real>, ido: nat, ip: nat, k: nat): (col: seq<Complex>)
    requires ido > 0
    ensures |col| == ip
  {
    seq(ip, (p: nat) => ZeroBin(x, ido, ip, k, p))
  }

  function MiddleBins(x: seq<real>, ido: nat, ip: nat, k: nat): (col: seq<Complex>)
    requires ido > 0
    ensures |col| == ip
  {
    seq(ip, (p: nat) => MiddleBin(x, ido, ip, k, p))
  }

  function PairBins(x: seq<real>, ido: nat, ip: nat, k: nat, i: nat): (col: seq<Complex>)
    requires 2 <= i < ido
    ensures |col| == ip
  {
    seq(ip, (p: nat) => PairBin(x, ido, ip, k, i, p))
  }

  lemma BinsAtZero(x: seq<real>, ido: nat, ip: nat, k: nat)
    requires BlockFits(x, ido, ip, k) && ido > 0
    ensures Bins(x, ido, ip, k, 0) == ZeroBins(x, ido, ip, k)
  {
    hide CellAt, Prod, Idx, BlockBin, StoredOr, Assigned, BlockFits;
    forall p: nat | p < ip
      ensures BlockBin(x, Prod(ido, ip), k, Idx(0, ido, p)) == ZeroBin(x, ido, ip, k, p)
    {
      if p == 0 {
        ZeroCell(x, ido, ip, k);
      } else if 2 * p < ip {
        ZeroPair(x, ido, ip, k, p);
      } else if 2 * p == ip {
        ZeroLast(x, ido, ip, k, p);
      } else {
        ZeroMirror(ido, ip, p);
        Mirrored(x, ido, ip, k, 0, p, 0, ip - p);
        ZeroPair(x, ido, ip, k, ip - p);
      }
    }
  }

  lemma BinsAtMiddle(x: seq<real>, ido: nat, ip: nat, k: nat, q: nat)
    requires BlockFits(x, ido, ip, k) && 0 < 2 * q == ido
    ensures Bins(x, ido, ip, k, q) == MiddleBins(x, ido, ip, k)
  {
    hide CellAt, Prod, Idx, BlockBin, StoredOr, Assigned, BlockFits;
    forall p: nat | p < ip
      ensures BlockBin(x, Prod(ido, ip), k, Idx(q, ido, p)) == MiddleBin(x, ido, ip, k, p)
    {
      if 2 * p + 1 < ip {
        MiddlePair(x, ido, ip, k, q, p);
      } else if 2 * p + 1 == ip {
        MiddleLast(x, ido, ip, k, q, p);
      } else {
        MiddleMirror(ido, ip, q, p);
        Mirrored(x, ido, ip, k, q, p, q, ip - 1 - p);
        MiddlePair(x, ido, ip, k, q, ip - 1 - p);
      }
    }
  }

  lemma BinsAtPair(x: seq<real>, ido: nat, ip: nat, k: nat, q: nat)
    requires BlockFits(x, ido, ip, k) && 0 < 2 * q < ido
    ensures Bins(x, ido, ip, k, q) == PairBins(x, ido, ip, k, 2 * q)
  {
    hide CellAt, Prod, Idx, BlockBin, StoredOr, Assigned, BlockFits;
    forall p: nat | p < ip
      ensures BlockBin(x, Prod(ido, ip), k, Idx(q, ido, p)) == PairBin(x, ido, ip, k, 2 * q, p)
    {
      if 2 * p < ip { LowPair(x, ido, ip, k, q, p); } else { HighPair(x, ido, ip, k, q, p); }
    }
  }

  // ---------- what is stored of its transform ----------

  /** The outputs of a column, turned by their factors. */
  function TurnedOutputs(y: seq<Complex>, wa: seq<real>, halfway: seq<Complex>, ido: nat, q: nat): (z: seq<Complex>)
    ensures |z| == |y|
  {
    seq(|y|, (j: nat) => Mul(Factor(wa, halfway, ido, q, j), At(y, j)))
  }

  /** The buffer after the first `n` parts have got frequency `q`. */
  function PartsStored(x: seq<real>, ido: nat, l1: nat, k: nat, q: nat, z: seq<Complex>, n: nat): (s: seq<real>)
    ensures |s| == |x|
  {
    if n == 0 then x
    else StoredOr(PartsStored(x, ido, l1, k, q, z, n - 1), ido, Idx(k, l1, n - 1), q, At(z, n - 1))
  }

  lemma ZeroPart(x: seq<real>, ido: nat, ip: nat, l1: nat, k: nat, z: seq<Complex>, j: nat)
    requires ido > 0 && k < l1 && j < ip && |x| == Times3(l1, ip, ido)
    ensures PartsStored(x, ido, l1, k, 0, z, j + 1)
         == Assigned(PartsStored(x, ido, l1, k, 0, z, j), ido, l1, 0, k, j, At(z, j).re)
  {
    PartInside(l1, ip, ido, k, j);
    PartOne(PartsStored(x, ido, l1, k, 0, z, j), ido, l1, k, j);
    hide Assigned, Idx, Prod, StoredOr;
  }

  lemma MiddlePart(x: seq<real>, ido: nat, ip: nat, l1: nat, k: nat, q: nat, z: seq<Complex>, j: nat)
    requires 0 < 2 * q == ido && k < l1 && j < ip && |x| == Times3(l1, ip, ido)
    ensures PartsStored(x, ido, l1, k, q, z, j + 1)
         == Assigned(PartsStored(x, ido, l1, k, q, z, j), ido, l1, ido - 1, k, j, At(z, j).re)
  {
    PartInside(l1, ip, ido, k, j);
    PartHalf(PartsStored(x, ido, l1, k, q, z, j), ido, l1, k, j, q);
    hide Assigned, Idx, Prod, StoredOr;
  }

  lemma PairPart(x: seq<real>, ido: nat, ip: nat, l1: nat, k: nat, q: nat, z: seq<Complex>, j: nat)
    requires 0 < 2 * q < ido && k < l1 && j < ip && |x| == Times3(l1, ip, ido)
    ensures PartsStored(x, ido, l1, k, q, z, j + 1)
         == Assigned(Assigned(PartsStored(x, ido, l1, k, q, z, j), ido, l1, 2 * q - 1, k, j, At(z, j).re),
                     ido, l1, 2 * q, k, j, At(z, j).im)
  {
    PartInside(l1, ip, ido, k, j);
    PartTwo(PartsStored(x, ido, l1, k, q, z, j), ido, l1, k, j, q);
    hide Assigned, Idx, Prod, StoredOr;
  }

  /** The buffer after a whole column is stored: its frequencies transformed and turned. */
  function PartsDone(was: seq<real>, col: seq<Complex>, wa: seq<real>, ido: nat, ip: nat, l1: nat, k: nat, q: nat,
                     r: Complex): seq<real>
  {
    PartsStored(was, ido, l1, k, q, TurnedOutputs(FixedButterfly(ip, r, 1, col), wa, Halfway(ip, r), ido, q), ip)
  }

  lemma Finished(was: seq<real>, col: seq<Complex>, wa: seq<real>, ido: nat, ip: nat, l1: nat, k: nat, q: nat,
                 r: Complex)
    ensures PartsDone(was, col, wa, ido, ip, l1, k, q, r)
         == PartsStored(was, ido, l1, k, q, TurnedOutputs(FixedButterfly(ip, r, 1, col), wa, Halfway(ip, r), ido, q),
                        ip)
    ensures PartsStored(was, ido, l1, k, q,
                        TurnedOutputs(FixedButterfly(ip, r, 1, col), wa, Halfway(ip, r), ido, q), 0) == was
  {}

  lemma ZeroTurned(y: seq<Complex>, wa: seq<real>, halfway: seq<Complex>, ido: nat, j: nat)
    requires j < |y|
    ensures At(TurnedOutputs(y, wa, halfway, ido, 0), j) == At(y, j)
  {
    MulOne(At(y, j));
    hide Mul;
  }

  /** One step more for every part, at the zero frequency. */
  lemma ZeroParts(was: seq<real>, ido: nat, ip: nat, l1: nat, k: nat, y: seq<Complex>, wa: seq<real>, r: Complex)
    requires ido > 0 && k < l1 && |was| == Times3(l1, ip, ido) && |y| == ip
    ensures
      var z := TurnedOutputs(y, wa, Halfway(ip, r), ido, 0);
      forall j: nat {:trigger PartsStored(was, ido, l1, k, 0, z, j)} :: j < ip ==>
        PartsStored(was, ido, l1, k, 0, z, j + 1)
          == Assigned(PartsStored(was, ido, l1, k, 0, z, j), ido, l1, 0, k, j, At(y, j).re)
  {
    hide *;
    var z := TurnedOutputs(y, wa, Halfway(ip, r), ido, 0);
    forall j: nat | j < ip
      ensures PartsStored(was, ido, l1, k, 0, z, j + 1)
           == Assigned(PartsStored(was, ido, l1, k, 0, z, j), ido, l1, 0, k, j, At(y, j).re)
    {
      ZeroTurned(y, wa, Halfway(ip, r), ido, j);
      ZeroPart(was, ido, ip, l1, k, z, j);
    }
  }

  /** The same at the middle frequency, where literals turn. */
  lemma MiddleParts(was: seq<real>, ido: nat, ip: nat, l1: nat, k: nat, q: nat, y: seq<Complex>, wa: seq<real>,
                    r: Complex, j: nat)
    requires 0 < 2 * q == ido && k < l1 && j < ip && |was| == Times3(l1, ip, ido) && |y| == ip
    ensures
      var z := TurnedOutputs(y, wa, Halfway(ip, r), ido, q);
      PartsStored(was, ido, l1, k, q, z, j + 1)
        == Assigned(PartsStored(was, ido, l1, k, q, z, j), ido, l1, ido - 1, k, j,
                    if j == 0 then At(y, 0).re else Mul(At(Halfway(ip, r), j), At(y, j)).re)
  {
    MulOne(At(y, j));
    hide Mul, Halfway, PartsStored, Assigned;
    MiddlePart(was, ido, ip, l1, k, q, TurnedOutputs(y, wa, Halfway(ip, r), ido, q), j);
  }

  lemma PairFirst(was: seq<real>, ido: nat, ip: nat, l1: nat, k: nat, q: nat, y: seq<Complex>, wa: seq<real>,
                  r: Complex)
    requires 0 < 2 * q < ido && k < l1 && ip > 0 && |was| == Times3(l1, ip, ido) && |y| == ip
    ensures
      var z := TurnedOutputs(y, wa, Halfway(ip, r), ido, q);
      PartsStored(was, ido, l1, k, q, z, 1)
        == Assigned(Assigned(PartsStored(was, ido, l1, k, q, z, 0), ido, l1, 2 * q - 1, k, 0, At(y, 0).re),
                    ido, l1, 2 * q, k, 0, At(y, 0).im)
  {
    MulOne(At(y, 0));
    hide Mul, Halfway, PartsStored, Assigned;
    PairPart(was, ido, ip, l1, k, q, TurnedOutputs(y, wa, Halfway(ip, r), ido, q), 0);
  }

  /** MULPM (CH(i,k,j), CH(i-1,k,j), WA(j-1,i-2), WA(j-1,i-1), im, re) for output `j`. */
  lemma PairTurned(was: seq<real>, ido: nat, ip: nat, l1: nat, k: nat, q: nat, i: nat, y: seq<Complex>, wa: seq<real>,
                   r: Complex, j: nat, v: Complex, t: Complex)
    requires 0 < 2 * q < ido && i == 2 * q && k < l1 && 0 < j < ip && |was| == Times3(l1, ip, ido) && |y| == ip
    requires At(y, j) == v && t == MulPM(WA(wa, ido, j - 1, i - 2), WA(wa, ido, j - 1, i - 1), v.im, v.re)
    ensures
      var z := TurnedOutputs(y, wa, Halfway(ip, r), ido, q);
      PartsStored(was, ido, l1, k, q, z, j + 1)
        == Assigned(Assigned(PartsStored(was, ido, l1, k, q, z, j), ido, l1, i - 1, k, j, t.im), ido, l1, i, k, j, t.re)
  {
    FactorCells(wa, ido, q, j);
    MulPMIs(WA(wa, ido, j - 1, i - 2), WA(wa, ido, j - 1, i - 1), v.re, v.im);
    hide Mul, MulPM, WA, FactorAt, Halfway, PartsStored, Assigned;
    PairPart(was, ido, ip, l1, k, q, TurnedOutputs(y, wa, Halfway(ip, r), ido, q), j);
  }

  // ---------- radb2 ----------

  lemma ZeroValues2(x: seq<real>, ido: nat, k: nat, r: Complex, c0: real, c1: real)
    requires ido > 0 && c0 == CellAt(x, ido, 2, 0, 0, k) && c1 == CellAt(x, ido, 2, ido - 1, 1, k)
    ensures
      var y := FixedButterfly(2, r, 1, ZeroBins(x, ido, 2, k));
      |y| == 2 && At(y, 0).re == c0 + c1 && At(y, 1).re == c0 - c1
  {
    hide CellAt;
  }

  method ZeroB2(ido: nat, l1: nat, cc: array<real>, ch: array<real>, ghost wa: seq<real>, ghost r: Complex, k: nat)
    requires Ready(cc, ch, ido, 2, l1, k)
    modifies ch
    ensures ch[..] == PartsDone(old(ch[..]), ZeroBins(cc[..], ido, 2, k), wa, ido, 2, l1, k, 0, r)
  {
    hide *;
    Readiness(cc, ch, ido, 2, l1, k);
    ghost var was, x, col := ch[..], cc[..], ZeroBins(cc[..], ido, 2, k);
    ghost var y := FixedButterfly(2, r, 1, col);
    var c0, c1 := CellAt(cc[..], ido, 2, 0, 0, k), CellAt(cc[..], ido, 2, ido - 1, 1, k);
    ZeroValues2(x, ido, k, r, c0, c1);
    ZeroParts(was, ido, 2, l1, k, y, wa, r);
    Assign(ch, ido, l1, 2, 0, k, 0, c0 + c1);
    Assign(ch, ido, l1, 2, 0, k, 1, c0 - c1);
    Finished(was, col, wa, ido, 2, l1, k, 0, r);
    assert cc[..] == x;
  }

  lemma MiddleValues2(x: seq<real>, ido: nat, k: nat, r: Complex, c0: real, c1: real)
    requires ido > 0 && c0 == CellAt(x, ido, 2, ido - 1, 0, k) && c1 == CellAt(x, ido, 2, 0, 1, k)
    ensures
      var y := FixedButterfly(2, r, 1, MiddleBins(x, ido, 2, k));
      |y| == 2 && At(y, 0).re == 2.0 * c0 && Mul(At(Halfway(2, r), 1), At(y, 1)).re == -2.0 * c1
  {
    hide CellAt;
  }

  method MiddleB2(ido: nat, l1: nat, cc: array<real>, ch: array<real>, ghost wa: seq<real>, ghost r: Complex,
                  k: nat, ghost q: nat)
    requires Ready(cc, ch, ido, 2, l1, k) && ido == 2 * q
    modifies ch
    ensures ch[..] == PartsDone(old(ch[..]), MiddleBins(cc[..], ido, 2, k), wa, ido, 2, l1, k, q, r)
  {
    hide *;
    Readiness(cc, ch, ido, 2, l1, k);
    ghost var was, x, col := ch[..], cc[..], MiddleBins(cc[..], ido, 2, k);
    ghost var y := FixedButterfly(2, r, 1, col);
    var c0, c1 := CellAt(cc[..], ido, 2, ido - 1, 0, k), CellAt(cc[..], ido, 2, 0, 1, k);
    MiddleValues2(x, ido, k, r, c0, c1);
    MiddleParts(was, ido, 2, l1, k, q, y, wa, r, 0);
    MiddleParts(was, ido, 2, l1, k, q, y, wa, r, 1);
    Assign(ch, ido, l1, 2, ido - 1, k, 0, 2.0 * c0);
    Assign(ch, ido, l1, 2, ido - 1, k, 1, -2.0 * c1);
    Finished(was, col, wa, ido, 2, l1, k, q, r);
    assert cc[..] == x;
  }

  lemma PairValues2(x: seq<real>, ido: nat, k: nat, i: nat, r: Complex, a0: real, b0: real, a1: real, b1: real)
    requires 2 <= i < ido && a0 == CellAt(x, ido, 2, i - 1, 0, k) && b0 == CellAt(x, ido, 2, i, 0, k)
    requires a1 == CellAt(x, ido, 2, ido - i - 1, 1, k) && b1 == CellAt(x, ido, 2, ido - i, 1, k)
    ensures
      var y := FixedButterfly(2, r, 1, PairBins(x, ido, 2, k, i));
      |y| == 2 && At(y, 0) == Complex(a0 + a1, b0 - b1) && At(y, 1) == Complex(a0 - a1, b0 + b1)
  {
    hide CellAt;
  }

  method PairB2(ido: nat, l1: nat, cc: array<real>, ch: array<real>, wa: seq<real>, ghost r: Complex, k: nat, i: nat,
                ghost q: nat)
    requires Ready(cc, ch, ido, 2, l1, k) && 2 <= i < ido && i == 2 * q
    modifies ch
    ensures ch[..] == PartsDone(old(ch[..]), PairBins(cc[..], ido, 2, k, i), wa, ido, 2, l1, k, q, r)
  {
    hide *;
    Readiness(cc, ch, ido, 2, l1, k);
    ghost var was, x, col := ch[..], cc[..], PairBins(cc[..], ido, 2, k, i);
    ghost var y := FixedButterfly(2, r, 1, col);
    var ic := ido - i;
    var a0, b0 := CellAt(cc[..], ido, 2, i - 1, 0, k), CellAt(cc[..], ido, 2, i, 0, k);
    var a1, b1 := CellAt(cc[..], ido, 2, ic - 1, 1, k), CellAt(cc[..], ido, 2, ic, 1, k);
    var tr2, ti2 := a0 - a1, b0 + b1;
    var t := MulPM(WA(wa, ido, 0, i - 2), WA(wa, ido, 0, i - 1), ti2, tr2);
    PairValues2(x, ido, k, i, r, a0, b0, a1, b1);
    PairFirst(was, ido, 2, l1, k, q, y, wa, r);
    PairTurned(was, ido, 2, l1, k, q, i, y, wa, r, 1, Complex(tr2, ti2), t);
    Assign(ch, ido, l1, 2, i - 1, k, 0, a0 + a1);
    Assign(ch, ido, l1, 2, i, k, 0, b0 - b1);
    Assign(ch, ido, l1, 2, i - 1, k, 1, t.im);
    Assign(ch, ido, l1, 2, i, k, 1, t.re);
    Finished(was, col, wa, ido, 2, l1, k, q, r);
    assert cc[..] == x;
  }

  // ---------- radb3 ----------

  lemma ZeroValues3(x: seq<real>, ido: nat, k: nat, taur: real, taui: real, c0: real, c1: real, c2: real,
                    tr2: real, cr2: real, ci3: real)
    requires ido > 0 && c0 == CellAt(x, ido, 3, 0, 0, k) && c1 == CellAt(x, ido, 3, ido - 1, 1, k)
    requires c2 == CellAt(x, ido, 3, 0, 2, k) && tr2 == 2.0 * c1 && cr2 == c0 + taur * tr2 && ci3 == 2.0 * taui * c2
    ensures
      var y := FixedButterfly(3, Complex(taur, taui), 1, ZeroBins(x, ido, 3, k));
      |y| == 3 && At(y, 0).re == c0 + tr2 && At(y, 1).re == cr2 - ci3 && At(y, 2).re == cr2 + ci3
  {
    var a, b, c := Complex(c0, 0.0), Complex(c1, c2), Complex(c1, -c2);
    assert ZeroBins(x, ido, 3, k) == [a, b, c] by { hide CellAt; }
    ThreeOutputs(a, b, c, Complex(taur, taui), 1);
    ZeroParts3(taur, taui, c0, c1, c2);
    assert taur * tr2 == taur * (2.0 * c1);
    hide CellAt, FixedButterfly, Scale, Turn;
  }

  lemma ZeroParts3(taur: real, taui: real, c0: real, c1: real, c2: real)
    ensures Add(Complex(c0, 0.0), Scale(taur, Add(Complex(c1, c2), Complex(c1, -c2))))
         == Complex(c0 + taur * (2.0 * c1), 0.0)
    ensures Turn(Scale(taui, Sub(Complex(c1, c2), Complex(c1, -c2)))) == Complex(-(2.0 * taui * c2), 0.0)
  {
    assert c1 + c1 == 2.0 * c1 && c2 - -c2 == 2.0 * c2;
    assert taui * (2.0 * c2) == 2.0 * taui * c2;
  }

  method ZeroB3(ido: nat, l1: nat, cc: array<real>, ch: array<real>, ghost wa: seq<real>, taur: real, taui: real,
                k: nat)
    requires Ready(cc, ch, ido, 3, l1, k)
    modifies ch
    ensures ch[..] == PartsDone(old(ch[..]), ZeroBins(cc[..], ido, 3, k), wa, ido, 3, l1, k, 0, Complex(taur, taui))
  {
    hide *;
    Readiness(cc, ch, ido, 3, l1, k);
    ghost var was, x, col := ch[..], cc[..], ZeroBins(cc[..], ido, 3, k);
    ghost var r := Complex(taur, taui);
    ghost var y := FixedButterfly(3, r, 1, col);
    var c0, c1 := CellAt(cc[..], ido, 3, 0, 0, k), CellAt(cc[..], ido, 3, ido - 1, 1, k);
    var c2 := CellAt(cc[..], ido, 3, 0, 2, k);
    var tr2 := 2.0 * c1;
    var cr2 := c0 + taur * tr2;
    var ci3 := 2.0 * taui * c2;
    ZeroValues3(x, ido, k, taur, taui, c0, c1, c2, tr2, cr2, ci3);
    ZeroParts(was, ido, 3, l1, k, y, wa, r);
    Assign(ch, ido, l1, 3, 0, k, 0, c0 + tr2);
    Assign(ch, ido, l1, 3, 0, k, 1, cr2 - ci3);
    Assign(ch, ido, l1, 3, 0, k, 2, cr2 + ci3);
    Finished(was, col, wa, ido, 3, l1, k, 0, r);
    assert cc[..] == x;
  }

  /** The values radb3 turns at a pair of frequencies. */
  lemma PairValues3(x: seq<real>, ido: nat, k: nat, i: nat, taur: real, taui: real, a0: real, b0: real, a2: real,
                    b2: real, a1: real, b1: real, tr2: real, ti2: real, cr2: real, ci2: real, cr3: real, ci3: real)
    requires 2 <= i < ido && a0 == CellAt(x, ido, 3, i - 1, 0, k) && b0 == CellAt(x, ido, 3, i, 0, k)
    requires a2 == CellAt(x, ido, 3, i - 1, 2, k) && b2 == CellAt(x, ido, 3, i, 2, k)
    requires a1 == CellAt(x, ido, 3, ido - i - 1, 1, k) && b1 == CellAt(x, ido, 3, ido - i, 1, k)
    requires tr2 == a2 + a1 && ti2 == b2 - b1 && cr2 == a0 + taur * tr2 && ci2 == b0 + taur * ti2
    requires cr3 == taui * (a2 - a1) && ci3 == taui * (b2 + b1)
    ensures
      var y := FixedButterfly(3, Complex(taur, taui), 1, PairBins(x, ido, 3, k, i));
      && |y| == 3 && At(y, 0) == Complex(a0 + tr2, b0 + ti2)
      && At(y, 1) == Complex(cr2 - ci3, ci2 + cr3) && At(y, 2) == Complex(cr2 + ci3, ci2 - cr3)
  {
    hide CellAt, FixedButterfly;
    assert PairBins(x, ido, 3, k, i) == [Complex(a0, b0), Complex(a2, b2), Complex(a1, -b1)];
    ThreeOutputs(Complex(a0, b0), Complex(a2, b2), Complex(a1, -b1), Complex(taur, taui), 1);
  }

  method PairB3(ido: nat, l1: nat, cc: array<real>, ch: array<real>, wa: seq<real>, taur: real, taui: real,
                k: nat, i: nat, ghost q: nat)
    requires Ready(cc, ch, ido, 3, l1, k) && 2 <= i < ido && i == 2 * q
    modifies ch
    ensures ch[..] == PartsDone(old(ch[..]), PairBins(cc[..], ido, 3, k, i), wa, ido, 3, l1, k, q, Complex(taur, taui))
  {
    hide *;
    Readiness(cc, ch, ido, 3, l1, k);
    ghost var was, x, col := ch[..], cc[..], PairBins(cc[..], ido, 3, k, i);
    ghost var r := Complex(taur, taui);
    ghost var y := FixedButterfly(3, r, 1, col);
    var ic := ido - i;
    var a0, b0 := CellAt(cc[..], ido, 3, i - 1, 0, k), CellAt(cc[..], ido, 3, i, 0, k);
    var a2, b2 := CellAt(cc[..], ido, 3, i - 1, 2, k), CellAt(cc[..], ido, 3, i, 2, k);
    var a1, b1 := CellAt(cc[..], ido, 3, ic - 1, 1, k), CellAt(cc[..], ido, 3, ic, 1, k);
    var tr2, ti2 := a2 + a1, b2 - b1;
    var cr2, ci2 := a0 + taur * tr2, b0 + taur * ti2;
    var cr3, ci3 := taui * (a2 - a1), taui * (b2 + b1);
    var dr3, dr2 := cr2 + ci3, cr2 - ci3;
    var di2, di3 := ci2 + cr3, ci2 - cr3;
    var t2 := MulPM(WA(wa, ido, 0, i - 2), WA(wa, ido, 0, i - 1), di2, dr2);
    var t3 := MulPM(WA(wa, ido, 1, i - 2), WA(wa, ido, 1, i - 1), di3, dr3);
    PairValues3(x, ido, k, i, taur, taui, a0, b0, a2, b2, a1, b1, tr2, ti2, cr2, ci2, cr3, ci3);
    PairFirst(was, ido, 3, l1, k, q, y, wa, r);
    PairTurned(was, ido, 3, l1, k, q, i, y, wa, r, 1, Complex(dr2, di2), t2);
    PairTurned(was, ido, 3, l1, k, q, i, y, wa, r, 2, Complex(dr3, di3), t3);
    Assign(ch, ido, l1, 3, i - 1, k, 0, a0 + tr2);
    Assign(ch, ido, l1, 3, i, k, 0, b0 + ti2);
    Assign(ch, ido, l1, 3, i - 1, k, 1, t2.im);
    Assign(ch, ido, l1, 3, i, k, 1, t2.re);
    Assign(ch, ido, l1, 3, i - 1, k, 2, t3.im);
    Assign(ch, ido, l1, 3, i, k, 2, t3.re);
    Finished(was, col, wa, ido, 3, l1, k, q, r);
    assert cc[..] == x;
  }

  // ---------- radb4 ----------

  lemma ZeroValues4(x: seq<real>, ido: nat, k: nat, r: Complex, c0: real, c1: real, c2: real, c3: real,
                    tr2: real, tr1: real, tr3: real, tr4: real)
    requires ido > 0 && c0 == CellAt(x, ido, 4, 0, 0, k) && c1 == CellAt(x, ido, 4, ido - 1, 1, k)
    requires c2 == CellAt(x, ido, 4, 0, 2, k) && c3 == CellAt(x, ido, 4, ido - 1, 3, k)
    requires tr2 == c0 + c3 && tr1 == c0 - c3 && tr3 == 2.0 * c1 && tr4 == 2.0 * c2
    ensures
      var y := FixedButterfly(4, r, 1, ZeroBins(x, ido, 4, k));
      && |y| == 4 && At(y, 0).re == tr2 + tr3 && At(y, 1).re == tr1 - tr4
      && At(y, 2).re == tr2 - tr3 && At(y, 3).re == tr1 + tr4
  {
    hide CellAt;
  }

  method ZeroB4(ido: nat, l1: nat, cc: array<real>, ch: array<real>, ghost wa: seq<real>, ghost r: Complex, k: nat)
    requires Ready(cc, ch, ido, 4, l1, k)
    modifies ch
    ensures ch[..] == PartsDone(old(ch[..]), ZeroBins(cc[..], ido, 4, k), wa, ido, 4, l1, k, 0, r)
  {
    hide *;
    Readiness(cc, ch, ido, 4, l1, k);
    ghost var was, x, col := ch[..], cc[..], ZeroBins(cc[..], ido, 4, k);
    ghost var y := FixedButterfly(4, r, 1, col);
    var c0, c1 := CellAt(cc[..], ido, 4, 0, 0, k), CellAt(cc[..], ido, 4, ido - 1, 1, k);
    var c2, c3 := CellAt(cc[..], ido, 4, 0, 2, k), CellAt(cc[..], ido, 4, ido - 1, 3, k);
    var tr2, tr1 := c0 + c3, c0 - c3;
    var tr3, tr4 := 2.0 * c1, 2.0 * c2;
    ZeroValues4(x, ido, k, r, c0, c1, c2, c3, tr2, tr1, tr3, tr4);
    ZeroParts(was, ido, 4, l1, k, y, wa, r);
    Assign(ch, ido, l1, 4, 0, k, 0, tr2 + tr3);
    Assign(ch, ido, l1, 4, 0, k, 1, tr1 - tr4);
    Assign(ch, ido, l1, 4, 0, k, 2, tr2 - tr3);
    Assign(ch, ido, l1, 4, 0, k, 3, tr1 + tr4);
    Finished(was, col, wa, ido, 4, l1, k, 0, r);
    assert cc[..] == x;
  }

  /** What an eighth, a quarter and three eighths of a turn make of the outputs. */
  lemma EighthBack(h: real, sqrt2: real, u: real)
    requires sqrt2 == 2.0 * h
    ensures Mul(Complex(h, h), Complex(u, -u)).re == sqrt2 * u
    ensures Mul(I, Complex(0.0, -u)).re == u
    ensures Mul(Mul(Complex(h, h), I), Complex(u, u)).re == -sqrt2 * u
  {
    assert Mul(Complex(h, h), I) == Complex(-h, h);
  }

  lemma MiddleValues4(x: seq<real>, ido: nat, k: nat, h: real, sqrt2: real, c0: real, c1: real, c2: real, c3: real,
                      ti1: real, ti2: real, tr2: real, tr1: real)
    requires ido > 0 && sqrt2 == 2.0 * h
    requires c0 == CellAt(x, ido, 4, ido - 1, 0, k) && c1 == CellAt(x, ido, 4, 0, 1, k)
    requires c2 == CellAt(x, ido, 4, ido - 1, 2, k) && c3 == CellAt(x, ido, 4, 0, 3, k)
    requires ti1 == c3 + c1 && ti2 == c3 - c1 && tr2 == c0 + c2 && tr1 == c0 - c2
    ensures
      var r := Complex(h, h);
      var y := FixedButterfly(4, r, 1, MiddleBins(x, ido, 4, k));
      && |y| == 4 && At(y, 0).re == tr2 + tr2
      && Mul(At(Halfway(4, r), 1), At(y, 1)).re == sqrt2 * (tr1 - ti1)
      && Mul(At(Halfway(4, r), 2), At(y, 2)).re == ti2 + ti2
      && Mul(At(Halfway(4, r), 3), At(y, 3)).re == -sqrt2 * (tr1 + ti1)
  {
    hide CellAt, Mul;
    EighthBack(h, sqrt2, tr1 - ti1);
    EighthBack(h, sqrt2, ti2 + ti2);
    EighthBack(h, sqrt2, tr1 + ti1);
    var y := FixedButterfly(4, Complex(h, h), 1, MiddleBins(x, ido, 4, k));
    assert At(y, 1) == Complex(tr1 - ti1, -(tr1 - ti1)) && At(y, 2) == Complex(0.0, -(ti2 + ti2));
    assert At(y, 3) == Complex(tr1 + ti1, tr1 + ti1);
  }

  method MiddleB4(ido: nat, l1: nat, cc: array<real>, ch: array<real>, ghost wa: seq<real>, ghost h: real, sqrt2: real,
                  k: nat, ghost q: nat)
    requires Ready(cc, ch, ido, 4, l1, k) && ido == 2 * q && sqrt2 == 2.0 * h
    modifies ch
    ensures ch[..] == PartsDone(old(ch[..]), MiddleBins(cc[..], ido, 4, k), wa, ido, 4, l1, k, q, Complex(h, h))
  {
    hide *;
    Readiness(cc, ch, ido, 4, l1, k);
    ghost var was, x, col := ch[..], cc[..], MiddleBins(cc[..], ido, 4, k);
    ghost var r := Complex(h, h);
    ghost var y := FixedButterfly(4, r, 1, col);
    var c0, c1 := CellAt(cc[..], ido, 4, ido - 1, 0, k), CellAt(cc[..], ido, 4, 0, 1, k);
    var c2, c3 := CellAt(cc[..], ido, 4, ido - 1, 2, k), CellAt(cc[..], ido, 4, 0, 3, k);
    var ti1, ti2 := c3 + c1, c3 - c1;
    var tr2, tr1 := c0 + c2, c0 - c2;
    MiddleValues4(x, ido, k, h, sqrt2, c0, c1, c2, c3, ti1, ti2, tr2, tr1);
    MiddleParts(was, ido, 4, l1, k, q, y, wa, r, 0);
    MiddleParts(was, ido, 4, l1, k, q, y, wa, r, 1);
    MiddleParts(was, ido, 4, l1, k, q, y, wa, r, 2);
    MiddleParts(was, ido, 4, l1, k, q, y, wa, r, 3);
    Assign(ch, ido, l1, 4, ido - 1, k, 0, tr2 + tr2);
    Assign(ch, ido, l1, 4, ido - 1, k, 1, sqrt2 * (tr1 - ti1));
    Assign(ch, ido, l1, 4, ido - 1, k, 2, ti2 + ti2);
    Assign(ch, ido, l1, 4, ido - 1, k, 3, -sqrt2 * (tr1 + ti1));
    Finished(was, col, wa, ido, 4, l1, k, q, r);
    assert cc[..] == x;
  }

  /** The values radb4 turns at a pair of frequencies. */
  lemma PairValues4(x: seq<real>, ido: nat, k: nat, i: nat, r: Complex, a0: real, b0: real, a1: real, b1: real,
                    a2: real, b2: real, a3: real, b3: real, tr2: real, tr1: real, ti1: real, ti2: real,
                    tr4: real, ti3: real, tr3: real, ti4: real)
    requires 2 <= i < ido && a0 == CellAt(x, ido, 4, i - 1, 0, k) && b0 == CellAt(x, ido, 4, i, 0, k)
    requires a1 == CellAt(x, ido, 4, ido - i - 1, 1, k) && b1 == CellAt(x, ido, 4, ido - i, 1, k)
    requires a2 == CellAt(x, ido, 4, i - 1, 2, k) && b2 == CellAt(x, ido, 4, i, 2, k)
    requires a3 == CellAt(x, ido, 4, ido - i - 1, 3, k) && b3 == CellAt(x, ido, 4, ido - i, 3, k)
    requires tr2 == a0 + a3 && tr1 == a0 - a3 && ti1 == b0 + b3 && ti2 == b0 - b3
    requires tr4 == b2 + b1 && ti3 == b2 - b1 && tr3 == a2 + a1 && ti4 == a2 - a1
    ensures
      var y := FixedButterfly(4, r, 1, PairBins(x, ido, 4, k, i));
      && |y| == 4 && At(y, 0) == Complex(tr2 + tr3, ti2 + ti3) && At(y, 1) == Complex(tr1 - tr4, ti1 + ti4)
      && At(y, 2) == Complex(tr2 - tr3, ti2 - ti3) && At(y, 3) == Complex(tr1 + tr4, ti1 - ti4)
  {
    hide CellAt;
  }

  method PairB4(ido: nat, l1: nat, cc: array<real>, ch: array<real>, wa: seq<real>, ghost r: Complex, k: nat, i: nat,
                ghost q: nat)
    requires Ready(cc, ch, ido, 4, l1, k) && 2 <= i < ido && i == 2 * q
    modifies ch
    ensures ch[..] == PartsDone(old(ch[..]), PairBins(cc[..], ido, 4, k, i), wa, ido, 4, l1, k, q, r)
  {
    hide *;
    Readiness(cc, ch, ido, 4, l1, k);
    ghost var was, x, col := ch[..], cc[..], PairBins(cc[..], ido, 4, k, i);
    ghost var y := FixedButterfly(4, r, 1, col);
    var ic := ido - i;
    var a0, b0 := CellAt(cc[..], ido, 4, i - 1, 0, k), CellAt(cc[..], ido, 4, i, 0, k);
    var a1, b1 := CellAt(cc[..], ido, 4, ic - 1, 1, k), CellAt(cc[..], ido, 4, ic, 1, k);
    var a2, b2 := CellAt(cc[..], ido, 4, i - 1, 2, k), CellAt(cc[..], ido, 4, i, 2, k);
    var a3, b3 := CellAt(cc[..], ido, 4, ic - 1, 3, k), CellAt(cc[..], ido, 4, ic, 3, k);
    var tr2, tr1 := a0 + a3, a0 - a3;
    var ti1, ti2 := b0 + b3, b0 - b3;
    var tr4, ti3 := b2 + b1, b2 - b1;
    var tr3, ti4 := a2 + a1, a2 - a1;
    var cr3, ci3 := tr2 - tr3, ti2 - ti3;
    var cr4, cr2 := tr1 + tr4, tr1 - tr4;
    var ci2, ci4 := ti1 + ti4, ti1 - ti4;
    var t2 := MulPM(WA(wa, ido, 0, i - 2), WA(wa, ido, 0, i - 1), ci2, cr2);
    var t3 := MulPM(WA(wa, ido, 1, i - 2), WA(wa, ido, 1, i - 1), ci3, cr3);
    var t4 := MulPM(WA(wa, ido, 2, i - 2), WA(wa, ido, 2, i - 1), ci4, cr4);
    PairValues4(x, ido, k, i, r, a0, b0, a1, b1, a2, b2, a3, b3, tr2, tr1, ti1, ti2, tr4, ti3, tr3, ti4);
    PairFirst(was, ido, 4, l1, k, q, y, wa, r);
    PairTurned(was, ido, 4, l1, k, q, i, y, wa, r, 1, Complex(cr2, ci2), t2);
    PairTurned(was, ido, 4, l1, k, q, i, y, wa, r, 2, Complex(cr3, ci3), t3);
    PairTurned(was, ido, 4, l1, k, q, i, y, wa, r, 3, Complex(cr4, ci4), t4);
    Assign(ch, ido, l1, 4, i - 1, k, 0, tr2 + tr3);
    Assign(ch, ido, l1, 4, i, k, 0, ti2 + ti3);
    Assign(ch, ido, l1, 4, i - 1, k, 1, t2.im);
    Assign(ch, ido, l1, 4, i, k, 1, t2.re);
    Assign(ch, ido, l1, 4, i - 1, k, 2, t3.im);
    Assign(ch, ido, l1, 4, i, k, 2, t3.re);
    Assign(ch, ido, l1, 4, i - 1, k, 3, t4.im);
    Assign(ch, ido, l1, 4, i, k, 3, t4.re);
    Finished(was, col, wa, ido, 4, l1, k, q, r);
    assert cc[..] == x;
  }

  // ---------- radb5 ----------

  /** The values radb5 turns, by the sums and differences it forms. */
  lemma BackwardFive(col: seq<Complex>, r: Complex, tr11: real, ti11: real, tr12: real, ti12: real,
                     tr2: real, ti2: real, tr3: real, ti3: real, tr5: real, ti5: real, tr4: real, ti4: real)
    requires Literals5(r, tr11, ti11, tr12, ti12) && |col| == 5
    requires tr2 == col[1].re + col[4].re && tr5 == col[1].re - col[4].re
    requires ti2 == col[1].im + col[4].im && ti5 == col[1].im - col[4].im
    requires tr3 == col[2].re + col[3].re && tr4 == col[2].re - col[3].re
    requires ti3 == col[2].im + col[3].im && ti4 == col[2].im - col[3].im
    ensures
      var y := FixedButterfly(5, r, 1, col);
      var a, c5, d5 := col[0], MulPM(tr5, tr4, ti11, ti12), MulPM(ti5, ti4, ti11, ti12);
      var cr2, ci2 := a.re + tr11 * tr2 + tr12 * tr3, a.im + tr11 * ti2 + tr12 * ti3;
      var cr3, ci3 := a.re + tr12 * tr2 + tr11 * tr3, a.im + tr12 * ti2 + tr11 * ti3;
      && |y| == 5
      && At(y, 0) == Complex(a.re + tr2 + tr3, a.im + ti2 + ti3)
      && At(y, 1) == Complex(cr2 - d5.re, ci2 + c5.re)
      && At(y, 2) == Complex(cr3 - d5.im, ci3 + c5.im)
      && At(y, 3) == Complex(cr3 + d5.im, ci3 - c5.im)
      && At(y, 4) == Complex(cr2 + d5.re, ci2 - c5.re)
  {
    var a, b, c, d, e := col[0], col[1], col[2], col[3], col[4];
    assert Signed(r, 1) == Complex(tr11, ti11) && Signed(Mul(r, r), 1) == Complex(tr12, ti12) by { hide Mul; }
    SharedByProducts(a, Complex(tr2, ti2), Complex(tr3, ti3), tr11, tr12);
    SharedByProducts(a, Complex(tr2, ti2), Complex(tr3, ti3), tr12, tr11);
    ApartByProducts(Complex(tr5, ti5), Complex(tr4, ti4), ti11, ti12);
    assert Add(b, e) == Complex(tr2, ti2) && Add(c, d) == Complex(tr3, ti3);
    assert Sub(b, e) == Complex(tr5, ti5) && Sub(c, d) == Complex(tr4, ti4);
    var c5, d5 := MulPM(tr5, tr4, ti11, ti12), MulPM(ti5, ti4, ti11, ti12);
    hide Mul, Signed, Shared5, Apart5, FixedButterfly, MulPM, At;
    FiveOutputs(col, r, 1, Complex(tr11, ti11), Complex(tr12, ti12),
                Complex(a.re + tr11 * tr2 + tr12 * tr3, a.im + tr11 * ti2 + tr12 * ti3), Complex(-d5.re, c5.re),
                Complex(a.re + tr12 * tr2 + tr11 * tr3, a.im + tr12 * ti2 + tr11 * ti3), Complex(-d5.im, c5.im));
  }

  lemma ZeroBins5(x: seq<real>, ido: nat, k: nat, c0: real, c1: real, c2: real, c3: real, c4: real)
    requires ido > 0 && c0 == CellAt(x, ido, 5, 0, 0, k) && c1 == CellAt(x, ido, 5, ido - 1, 1, k)
    requires c2 == CellAt(x, ido, 5, 0, 2, k) && c3 == CellAt(x, ido, 5, ido - 1, 3, k)
    requires c4 == CellAt(x, ido, 5, 0, 4, k)
    ensures ZeroBins(x, ido, 5, k)
         == [Complex(c0, 0.0), Complex(c1, c2), Complex(c3, c4), Complex(c3, -c4), Complex(c1, -c2)]
  {
    hide CellAt;
  }

  method ZeroB5(ido: nat, l1: nat, cc: array<real>, ch: array<real>, ghost wa: seq<real>,
                tr11: real, ti11: real, tr12: real, ti12: real, ghost r: Complex, k: nat)
    requires Ready(cc, ch, ido, 5, l1, k) && Literals5(r, tr11, ti11, tr12, ti12)
    modifies ch
    ensures ch[..] == PartsDone(old(ch[..]), ZeroBins(cc[..], ido, 5, k), wa, ido, 5, l1, k, 0, r)
  {
    hide *;
    Readiness(cc, ch, ido, 5, l1, k);
    ghost var was, x, col := ch[..], cc[..], ZeroBins(cc[..], ido, 5, k);
    ghost var y := FixedButterfly(5, r, 1, col);
    var c0, c1 := CellAt(cc[..], ido, 5, 0, 0, k), CellAt(cc[..], ido, 5, ido - 1, 1, k);
    var c2, c3 := CellAt(cc[..], ido, 5, 0, 2, k), CellAt(cc[..], ido, 5, ido - 1, 3, k);
    var c4 := CellAt(cc[..], ido, 5, 0, 4, k);
    var ti5, ti4 := c2 + c2, c4 + c4;
    var tr2, tr3 := c1 + c1, c3 + c3;
    var cr2 := c0 + tr11 * tr2 + tr12 * tr3;
    var cr3 := c0 + tr12 * tr2 + tr11 * tr3;
    var d5 := MulPM(ti5, ti4, ti11, ti12);
    ZeroBins5(x, ido, k, c0, c1, c2, c3, c4);
    BackwardFive(col, r, tr11, ti11, tr12, ti12, tr2, 0.0, tr3, 0.0, 0.0, ti5, 0.0, ti4);
    ZeroParts(was, ido, 5, l1, k, y, wa, r);
    Assign(ch, ido, l1, 5, 0, k, 0, c0 + tr2 + tr3);
    Assign(ch, ido, l1, 5, 0, k, 1, cr2 - d5.re);
    Assign(ch, ido, l1, 5, 0, k, 2, cr3 - d5.im);
    Assign(ch, ido, l1, 5, 0, k, 3, cr3 + d5.im);
    Assign(ch, ido, l1, 5, 0, k, 4, cr2 + d5.re);
    Finished(was, col, wa, ido, 5, l1, k, 0, r);
    assert cc[..] == x;
  }

  lemma PairBins5(x: seq<real>, ido: nat, k: nat, i: nat, a0: real, b0: real, a1: real, b1: real, a2: real, b2: real,
                  a3: real, b3: real, a4: real, b4: real)
    requires 2 <= i < ido && a0 == CellAt(x, ido, 5, i - 1, 0, k) && b0 == CellAt(x, ido, 5, i, 0, k)
    requires a1 == CellAt(x, ido, 5, ido - i - 1, 1, k) && b1 == CellAt(x, ido, 5, ido - i, 1, k)
    requires a2 == CellAt(x, ido, 5, i - 1, 2, k) && b2 == CellAt(x, ido, 5, i, 2, k)
    requires a3 == CellAt(x, ido, 5, ido - i - 1, 3, k) && b3 == CellAt(x, ido, 5, ido - i, 3, k)
    requires a4 == CellAt(x, ido, 5, i - 1, 4, k) && b4 == CellAt(x, ido, 5, i, 4, k)
    ensures PairBins(x, ido, 5, k, i)
         == [Complex(a0, b0), Complex(a2, b2), Complex(a4, b4), Complex(a3, -b3), Complex(a1, -b1)]
  {
    hide CellAt;
  }

  method PairB5(ido: nat, l1: nat, cc: array<real>, ch: array<real>, wa: seq<real>,
                tr11: real, ti11: real, tr12: real, ti12: real, ghost r: Complex, k: nat, i: nat, ghost q: nat)
    requires Ready(cc, ch, ido, 5, l1, k) && 2 <= i < ido && i == 2 * q && Literals5(r, tr11, ti11, tr12, ti12)
    modifies ch
    ensures ch[..] == PartsDone(old(ch[..]), PairBins(cc[..], ido, 5, k, i), wa, ido, 5, l1, k, q, r)
  {
    hide *;
    Readiness(cc, ch, ido, 5, l1, k);
    ghost var was, x, col := ch[..], cc[..], PairBins(cc[..], ido, 5, k, i);
    ghost var y := FixedButterfly(5, r, 1, col);
    var ic := ido - i;
    var a0, b0 := CellAt(cc[..], ido, 5, i - 1, 0, k), CellAt(cc[..], ido, 5, i, 0, k);
    var a1, b1 := CellAt(cc[..], ido, 5, ic - 1, 1, k), CellAt(cc[..], ido, 5, ic, 1, k);
    var a2, b2 := CellAt(cc[..], ido, 5, i - 1, 2, k), CellAt(cc[..], ido, 5, i, 2, k);
    var a3, b3 := CellAt(cc[..], ido, 5, ic - 1, 3, k), CellAt(cc[..], ido, 5, ic, 3, k);
    var a4, b4 := CellAt(cc[..], ido, 5, i - 1, 4, k), CellAt(cc[..], ido, 5, i, 4, k);
    var tr2, tr5 := a2 + a1, a2 - a1;
    var ti5, ti2 := b2 + b1, b2 - b1;
    var tr3, tr4 := a4 + a3, a4 - a3;
    var ti4, ti3 := b4 + b3, b4 - b3;
    var cr2, ci2 := a0 + tr11 * tr2 + tr12 * tr3, b0 + tr11 * ti2 + tr12 * ti3;
    var cr3, ci3 := a0 + tr12 * tr2 + tr11 * tr3, b0 + tr12 * ti2 + tr11 * ti3;
    var c5 := MulPM(tr5, tr4, ti11, ti12);
    var d5 := MulPM(ti5, ti4, ti11, ti12);
    var dr4, dr3 := cr3 + d5.im, cr3 - d5.im;
    var di3, di4 := ci3 + c5.im, ci3 - c5.im;
    var dr5, dr2 := cr2 + d5.re, cr2 - d5.re;
    var di2, di5 := ci2 + c5.re, ci2 - c5.re;
    var t2 := MulPM(WA(wa, ido, 0, i - 2), WA(wa, ido, 0, i - 1), di2, dr2);
    var t3 := MulPM(WA(wa, ido, 1, i - 2), WA(wa, ido, 1, i - 1), di3, dr3);
    var t4 := MulPM(WA(wa, ido, 2, i - 2), WA(wa, ido, 2, i - 1), di4, dr4);
    var t5 := MulPM(WA(wa, ido, 3, i - 2), WA(wa, ido, 3, i - 1), di5, dr5);
    PairBins5(x, ido, k, i, a0, b0, a1, b1, a2, b2, a3, b3, a4, b4);
    BackwardFive(col, r, tr11, ti11, tr12, ti12, tr2, ti2, tr3, ti3, tr5, ti5, tr4, ti4);
    PairFirst(was, ido, 5, l1, k, q, y, wa, r);
    PairTurned(was, ido, 5, l1, k, q, i, y, wa, r, 1, Complex(dr2, di2), t2);
    PairTurned(was, ido, 5, l1, k, q, i, y, wa, r, 2, Complex(dr3, di3), t3);
    PairTurned(was, ido, 5, l1, k, q, i, y, wa, r, 3, Complex(dr4, di4), t4);
    PairTurned(was, ido, 5, l1, k, q, i, y, wa, r, 4, Complex(dr5, di5), t5);
    Assign(ch, ido, l1, 5, i - 1, k, 0, a0 + tr2 + tr3);
    Assign(ch, ido, l1, 5, i, k, 0, b0 + ti2 + ti3);
    Assign(ch, ido, l1, 5, i - 1, k, 1, t2.im);
    Assign(ch, ido, l1, 5, i, k, 1, t2.re);
    Assign(ch, ido, l1, 5, i - 1, k, 2, t3.im);
    Assign(ch, ido, l1, 5, i, k, 2, t3.re);
    Assign(ch, ido, l1, 5, i - 1, k, 3, t4.im);
    Assign(ch, ido, l1, 5, i, k, 3, t4.re);
    Assign(ch, ido, l1, 5, i - 1, k, 4, t5.im);
    Assign(ch, ido, l1, 5, i, k, 4, t5.re);
    Finished(was, col, wa, ido, 5, l1, k, q, r);
    assert cc[..] == x;
  }

  // ---------- any radix ----------

  /** One column of the pass for radix `ip`. */
  method StoreParts(ido: nat, ip: nat, l1: nat, cc: array<real>, ch: array<real>, wa: seq<real>, r: Complex,
                    k: nat, q: nat)
    requires Ready(cc, ch, ido, ip, l1, k) && LiteralsFit(ip, ido, r) && q < ido && 2 * q <= ido
    modifies ch
    ensures ch[..] == PartsDone(old(ch[..]), Bins(cc[..], ido, ip, k, q), wa, ido, ip, l1, k, q, r)
  {
    hide *;
    LiteralsShape(ip, ido, r);
    Readiness(cc, ch, ido, ip, l1, k);
    ghost var x := cc[..];
    if q == 0 {
      BinsAtZero(x, ido, ip, k);
      if ip == 2 {
        ZeroB2(ido, l1, cc, ch, wa, r, k);
      } else if ip == 3 {
        ZeroB3(ido, l1, cc, ch, wa, r.re, r.im, k);
      } else if ip == 4 {
        ZeroB4(ido, l1, cc, ch, wa, r, k);
      } else {
        var s := Mul(r, r);
        FiveLiterals(r, s);
        ZeroB5(ido, l1, cc, ch, wa, r.re, r.im, s.re, s.im, r, k);
      }
    } else if 2 * q == ido {
      BinsAtMiddle(x, ido, ip, k, q);
      if ip == 2 {
        MiddleB2(ido, l1, cc, ch, wa, r, k, q);
      } else {
        MiddleB4(ido, l1, cc, ch, wa, r.re, 2.0 * r.re, k, q);
      }
    } else {
      BinsAtPair(x, ido, ip, k, q);
      if ip == 2 {
        PairB2(ido, l1, cc, ch, wa, r, k, 2 * q, q);
      } else if ip == 3 {
        PairB3(ido, l1, cc, ch, wa, r.re, r.im, k, 2 * q, q);
      } else if ip == 4 {
        PairB4(ido, l1, cc, ch, wa, r, k, 2 * q, q);
      } else {
        var s := Mul(r, r);
        FiveLiterals(r, s);
        PairB5(ido, l1, cc, ch, wa, r.re, r.im, s.re, s.im, r, k, 2 * q, q);
      }
    }
    assert cc[..] == x;
  }
}
