/** The bodies of the loops of radf2, radf3, radf4 and radf5: one column each, assignment by assignment,
    proved to store the short transform of the column's turned inputs. */
module ForwardColumns {
  import opened Basics
  import opened Complexes
  import opened Dft
  import opened RadixPass
  import opened RealSpectra
  import opened RealColumns

  // ---------- what a column is ----------

  /** The inputs at the zero frequency. */
  function ZeroInputs(x: seq<real>, ido: nat, ip: nat, l1: nat, k: nat): (col: seq<Complex>)
    ensures |col| == ip
  {
    seq(ip, (j: nat) => Complex(CellAt(x, ido, l1, 0, k, j), 0.0))
  }

  /** Those at the middle frequency, turned by literals. */
  function MiddleInputs(x: seq<real>, halfway: seq<Complex>, ido: nat, ip: nat, l1: nat, k: nat): (col: seq<Complex>)
    requires ido > 0
    ensures |col| == ip
  {
    seq(ip, (j: nat) => if j == 0 then Complex(CellAt(x, ido, l1, ido - 1, k, j), 0.0)
                        else Mul(Conj(At(halfway, j)), Complex(CellAt(x, ido, l1, ido - 1, k, j), 0.0)))
  }

  /** Those at frequency `i / 2`, turned by the factors of the table. */
  function PairInput(x: seq<real>, wa: seq<real>, ido: nat, l1: nat, k: nat, i: nat, j: nat): Complex
    requires ido > 0 && i >= 2
  {
    if j == 0 then Complex(CellAt(x, ido, l1, i - 1, k, 0), CellAt(x, ido, l1, i, k, 0))
    else MulPM(WA(wa, ido, j - 1, i - 2), WA(wa, ido, j - 1, i - 1),
               CellAt(x, ido, l1, i - 1, k, j), CellAt(x, ido, l1, i, k, j))
  }

  function PairInputs(x: seq<real>, wa: seq<real>, ido: nat, ip: nat, l1: nat, k: nat, i: nat): (col: seq<Complex>)
    requires ido > 0 && i >= 2
    ensures |col| == ip
  {
    seq(ip, (j: nat) => PairInput(x, wa, ido, l1, k, i, j))
  }

  lemma ConjOfOne(z: Complex)
    ensures Mul(Conj(ONE), z) == z
  {
    ConjOne();
    MulOne(z);
    hide Mul, Conj;
  }

  lemma TurnedZero(x: seq<real>, wa: seq<real>, halfway: seq<Complex>, ido: nat, ip: nat, l1: nat, k: nat)
    requires ido > 0 && k < l1 && |x| == Times3(l1, ip, ido)
    ensures TurnedColumn(x, wa, halfway, ido, ip, l1, k, 0) == ZeroInputs(x, ido, ip, l1, k)
  {
    hide Mul, Conj, BlockBin, CellAt, Idx, Prod, Times3;
    forall j: nat | j < ip
      ensures Mul(Conj(ONE), BlockBin(x, ido, Idx(k, l1, j), 0)) == Complex(CellAt(x, ido, l1, 0, k, j), 0.0)
    {
      PartInside(l1, ip, ido, k, j);
      PartOne(x, ido, l1, k, j);
      ConjOfOne(BlockBin(x, ido, Idx(k, l1, j), 0));
    }
  }

  lemma TurnedMiddle(x: seq<real>, wa: seq<real>, halfway: seq<Complex>, ido: nat, ip: nat, l1: nat, k: nat, q: nat)
    requires 0 < 2 * q == ido && k < l1 && |x| == Times3(l1, ip, ido)
    ensures TurnedColumn(x, wa, halfway, ido, ip, l1, k, q) == MiddleInputs(x, halfway, ido, ip, l1, k)
  {
    hide Mul, Conj, BlockBin, CellAt, Idx, Prod, Times3, At;
    forall j: nat | j < ip
      ensures TurnedColumn(x, wa, halfway, ido, ip, l1, k, q)[j] == MiddleInputs(x, halfway, ido, ip, l1, k)[j]
    {
      PartInside(l1, ip, ido, k, j);
      PartHalf(x, ido, l1, k, j, q);
      ConjOfOne(BlockBin(x, ido, Idx(k, l1, j), q));
    }
  }

  lemma TurnedPair(x: seq<real>, wa: seq<real>, halfway: seq<Complex>, ido: nat, ip: nat, l1: nat, k: nat, q: nat)
    requires 0 < 2 * q < ido && k < l1 && |x| == Times3(l1, ip, ido)
    ensures TurnedColumn(x, wa, halfway, ido, ip, l1, k, q) == PairInputs(x, wa, ido, ip, l1, k, 2 * q)
  {
    hide Mul, Conj, BlockBin, CellAt, Idx, Prod, Times3, WA, MulPM, FactorAt;
    forall j: nat | j < ip
      ensures TurnedColumn(x, wa, halfway, ido, ip, l1, k, q)[j] == PairInputs(x, wa, ido, ip, l1, k, 2 * q)[j]
    {
      PartInside(l1, ip, ido, k, j);
      PartTwo(x, ido, l1, k, j, q);
      ConjOfOne(BlockBin(x, ido, Idx(k, l1, j), q));
      if j > 0 {
        FactorCells(wa, ido, q, j);
        MulPMIs(WA(wa, ido, j - 1, 2 * q - 2), WA(wa, ido, j - 1, 2 * q - 1),
                CellAt(x, ido, l1, 2 * q - 1, k, j), CellAt(x, ido, l1, 2 * q, k, j));
      }
    }
  }

  // ---------- what is stored of its transform ----------

  /** How many frequencies of remainder `q` a pass stores. */
  function Count(ido: nat, ip: nat, q: nat): nat {
    if q == 0 then ip / 2 + 1 else if 2 * q == ido then (ip + 1) / 2 else ip
  }

  /** The buffer after the first `n` outputs of a column are stored. */
  function ColumnStored(x: seq<real>, ido: nat, ip: nat, k: nat, q: nat, y: seq<Complex>, n: nat): (s: seq<real>)
    ensures |s| == |x|
  {
    if n == 0 then x
    else StoredOr(ColumnStored(x, ido, ip, k, q, y, n - 1), Prod(ido, ip), k, Idx(q, ido, n - 1), At(y, n - 1))
  }

  lemma ZeroStored(x: seq<real>, ido: nat, ip: nat, k: nat, y: seq<Complex>)
    requires BlockFits(x, ido, ip, k) && ido > 0 && ip > 0
    ensures ColumnStored(x, ido, ip, k, 0, y, 1)
         == Assigned(ColumnStored(x, ido, ip, k, 0, y, 0), ido, ip, 0, 0, k, At(y, 0).re)
  {
    ZeroCell(ColumnStored(x, ido, ip, k, 0, y, 0), ido, ip, k);
    hide Assigned, Idx, Prod, StoredOr;
  }

  lemma ZeroPairStored(x: seq<real>, ido: nat, ip: nat, k: nat, y: seq<Complex>, p: nat)
    requires BlockFits(x, ido, ip, k) && ido > 0 && 0 < 2 * p < ip
    ensures ColumnStored(x, ido, ip, k, 0, y, p + 1)
         == Assigned(Assigned(ColumnStored(x, ido, ip, k, 0, y, p), ido, ip, ido - 1, 2 * p - 1, k, At(y, p).re),
                     ido, ip, 0, 2 * p, k, At(y, p).im)
  {
    ZeroPair(ColumnStored(x, ido, ip, k, 0, y, p), ido, ip, k, p);
    hide Assigned, Idx, Prod, StoredOr;
  }

  lemma ZeroLastStored(x: seq<real>, ido: nat, ip: nat, k: nat, y: seq<Complex>, p: nat)
    requires BlockFits(x, ido, ip, k) && ido > 0 && 0 < 2 * p == ip
    ensures ColumnStored(x, ido, ip, k, 0, y, p + 1)
         == Assigned(ColumnStored(x, ido, ip, k, 0, y, p), ido, ip, ido - 1, 2 * p - 1, k, At(y, p).re)
  {
    ZeroLast(ColumnStored(x, ido, ip, k, 0, y, p), ido, ip, k, p);
    hide Assigned, Idx, Prod, StoredOr;
  }

  lemma MiddlePairStored(x: seq<real>, ido: nat, ip: nat, k: nat, q: nat, y: seq<Complex>, p: nat)
    requires BlockFits(x, ido, ip, k) && 0 < 2 * q == ido && 2 * p + 1 < ip
    ensures ColumnStored(x, ido, ip, k, q, y, p + 1)
         == Assigned(Assigned(ColumnStored(x, ido, ip, k, q, y, p), ido, ip, ido - 1, 2 * p, k, At(y, p).re),
                     ido, ip, 0, 2 * p + 1, k, At(y, p).im)
  {
    MiddlePair(ColumnStored(x, ido, ip, k, q, y, p), ido, ip, k, q, p);
    hide Assigned, Idx, Prod, StoredOr;
  }

  lemma LowStored(x: seq<real>, ido: nat, ip: nat, k: nat, q: nat, y: seq<Complex>, p: nat)
    requires BlockFits(x, ido, ip, k) && 0 < 2 * q < ido && 2 * p < ip
    ensures ColumnStored(x, ido, ip, k, q, y, p + 1)
         == Assigned(Assigned(ColumnStored(x, ido, ip, k, q, y, p), ido, ip, 2 * q - 1, 2 * p, k, At(y, p).re),
                     ido, ip, 2 * q, 2 * p, k, At(y, p).im)
  {
    LowPair(ColumnStored(x, ido, ip, k, q, y, p), ido, ip, k, q, p);
    hide Assigned, Idx, Prod, StoredOr;
  }

  lemma HighStored(x: seq<real>, ido: nat, ip: nat, k: nat, q: nat, y: seq<Complex>, p: nat, row: nat)
    requires BlockFits(x, ido, ip, k) && 0 < 2 * q < ido && p < ip <= 2 * p && row == 2 * (ip - p) - 1
    ensures ColumnStored(x, ido, ip, k, q, y, p + 1)
         == Assigned(Assigned(ColumnStored(x, ido, ip, k, q, y, p), ido, ip, ido - 2 * q - 1, row, k, At(y, p).re),
                     ido, ip, ido - 2 * q, row, k, -At(y, p).im)
  {
    HighPair(ColumnStored(x, ido, ip, k, q, y, p), ido, ip, k, q, p);
    hide Assigned, Idx, Prod, StoredOr;
  }

  /** The buffer after a whole column is stored: its inputs transformed. */
  function ColumnDone(was: seq<real>, col: seq<Complex>, ido: nat, ip: nat, k: nat, q: nat, r: Complex): seq<real> {
    ColumnStored(was, ido, ip, k, q, FixedButterfly(ip, r, -1, col), Count(ido, ip, q))
  }

  lemma Finished(was: seq<real>, col: seq<Complex>, ido: nat, ip: nat, k: nat, q: nat, r: Complex, n: nat)
    requires n == if q == 0 then ip / 2 + 1 else if 2 * q == ido then (ip + 1) / 2 else ip
    ensures ColumnDone(was, col, ido, ip, k, q, r)
         == ColumnStored(was, ido, ip, k, q, FixedButterfly(ip, r, -1, col), n)
    ensures ColumnStored(was, ido, ip, k, q, FixedButterfly(ip, r, -1, col), 0) == was
  {}

  // ---------- radf2 ----------

  lemma ZeroValues2(x: seq<real>, ido: nat, l1: nat, k: nat, r: Complex, c0: real, c1: real)
    requires c0 == CellAt(x, ido, l1, 0, k, 0) && c1 == CellAt(x, ido, l1, 0, k, 1)
    ensures
      var y := FixedButterfly(2, r, -1, ZeroInputs(x, ido, 2, l1, k));
      At(y, 0).re == c0 + c1 && At(y, 1).re == c0 - c1
  {}

  method ZeroF2(ido: nat, l1: nat, cc: array<real>, ch: array<real>, ghost r: Complex, k: nat)
    requires Ready(cc, ch, ido, 2, l1, k)
    modifies ch
    ensures ch[..] == ColumnDone(old(ch[..]), ZeroInputs(cc[..], ido, 2, l1, k), ido, 2, k, 0, r)
  {
    hide *;
    Readiness(cc, ch, ido, 2, l1, k);
    ghost var was, x, col := ch[..], cc[..], ZeroInputs(cc[..], ido, 2, l1, k);
    ghost var y := FixedButterfly(2, r, -1, col);
    var c0, c1 := CellAt(cc[..], ido, l1, 0, k, 0), CellAt(cc[..], ido, l1, 0, k, 1);
    ZeroValues2(x, ido, l1, k, r, c0, c1);
    ZeroStored(was, ido, 2, k, y);
    ZeroLastStored(was, ido, 2, k, y, 1);
    Assign(ch, ido, 2, l1, 0, 0, k, c0 + c1);
    Assign(ch, ido, 2, l1, ido - 1, 1, k, c0 - c1);
    Finished(was, col, ido, 2, k, 0, r, 2);
    assert cc[..] == x;
  }

  lemma MiddleValues2(x: seq<real>, ido: nat, l1: nat, k: nat, r: Complex, c0: real, c1: real)
    requires ido > 0
    requires c0 == CellAt(x, ido, l1, ido - 1, k, 0) && c1 == CellAt(x, ido, l1, ido - 1, k, 1)
    ensures At(FixedButterfly(2, r, -1, MiddleInputs(x, Halfway(2, r), ido, 2, l1, k)), 0) == Complex(c0, -c1)
  {
    hide CellAt;
  }

  method MiddleF2(ido: nat, l1: nat, cc: array<real>, ch: array<real>, ghost r: Complex, k: nat, ghost q: nat)
    requires Ready(cc, ch, ido, 2, l1, k) && ido == 2 * q
    modifies ch
    ensures ch[..] == ColumnDone(old(ch[..]), MiddleInputs(cc[..], Halfway(2, r), ido, 2, l1, k), ido, 2, k, q, r)
  {
    hide *;
    Readiness(cc, ch, ido, 2, l1, k);
    ghost var was, x, col := ch[..], cc[..], MiddleInputs(cc[..], Halfway(2, r), ido, 2, l1, k);
    ghost var y := FixedButterfly(2, r, -1, col);
    var c0, c1 := CellAt(cc[..], ido, l1, ido - 1, k, 0), CellAt(cc[..], ido, l1, ido - 1, k, 1);
    MiddleValues2(x, ido, l1, k, r, c0, c1);
    MiddlePairStored(was, ido, 2, k, q, y, 0);
    Assign(ch, ido, 2, l1, ido - 1, 0, k, c0);
    Assign(ch, ido, 2, l1, 0, 1, k, -c1);
    Finished(was, col, ido, 2, k, q, r, 1);
    assert cc[..] == x;
  }

  lemma PairValues2(x: seq<real>, wa: seq<real>, ido: nat, l1: nat, k: nat, i: nat, r: Complex, a: Complex, d2: Complex)
    requires i >= 2 && ido > 0
    requires a == PairInput(x, wa, ido, l1, k, i, 0) && d2 == PairInput(x, wa, ido, l1, k, i, 1)
    ensures
      var y := FixedButterfly(2, r, -1, PairInputs(x, wa, ido, 2, l1, k, i));
      && At(y, 0) == Complex(a.re + d2.re, d2.im + a.im)
      && At(y, 1) == Complex(a.re - d2.re, -(d2.im - a.im))
  {
    hide PairInput;
  }

  method PairF2(ido: nat, l1: nat, cc: array<real>, ch: array<real>, wa: seq<real>, ghost r: Complex, k: nat, i: nat,
                ghost q: nat)
    requires Ready(cc, ch, ido, 2, l1, k) && 2 <= i < ido && i == 2 * q
    modifies ch
    ensures ch[..] == ColumnDone(old(ch[..]), PairInputs(cc[..], wa, ido, 2, l1, k, i), ido, 2, k, q, r)
  {
    hide *;
    Readiness(cc, ch, ido, 2, l1, k);
    ghost var was, x, col := ch[..], cc[..], PairInputs(cc[..], wa, ido, 2, l1, k, i);
    ghost var y := FixedButterfly(2, r, -1, col);
    var ic := ido - i;
    var a, d2 := PairInput(cc[..], wa, ido, l1, k, i, 0), PairInput(cc[..], wa, ido, l1, k, i, 1);
    PairValues2(x, wa, ido, l1, k, i, r, a, d2);
    LowStored(was, ido, 2, k, q, y, 0);
    HighStored(was, ido, 2, k, q, y, 1, 1);
    Assign(ch, ido, 2, l1, i - 1, 0, k, a.re + d2.re);
    Assign(ch, ido, 2, l1, i, 0, k, d2.im + a.im);
    Assign(ch, ido, 2, l1, ic - 1, 1, k, a.re - d2.re);
    Assign(ch, ido, 2, l1, ic, 1, k, d2.im - a.im);
    Finished(was, col, ido, 2, k, q, r, 2);
    assert cc[..] == x;
  }

  // ---------- radf3 ----------

  lemma ZeroValues3(x: seq<real>, ido: nat, l1: nat, k: nat, taur: real, taui: real,
                    c0: real, c1: real, c2: real, cr2: real)
    requires c0 == CellAt(x, ido, l1, 0, k, 0) && c1 == CellAt(x, ido, l1, 0, k, 1)
    requires c2 == CellAt(x, ido, l1, 0, k, 2) && cr2 == c1 + c2
    ensures
      var y := FixedButterfly(3, Complex(taur, taui), -1, ZeroInputs(x, ido, 3, l1, k));
      At(y, 0).re == c0 + cr2 && At(y, 1) == Complex(c0 + taur * cr2, taui * (c2 - c1))
  {
    hide CellAt, FixedButterfly;
    assert ZeroInputs(x, ido, 3, l1, k) == [Complex(c0, 0.0), Complex(c1, 0.0), Complex(c2, 0.0)];
    ThreeOutputs(Complex(c0, 0.0), Complex(c1, 0.0), Complex(c2, 0.0), Complex(taur, taui), -1);
  }

  method ZeroF3(ido: nat, l1: nat, cc: array<real>, ch: array<real>, taur: real, taui: real, k: nat)
    requires Ready(cc, ch, ido, 3, l1, k)
    modifies ch
    ensures ch[..] == ColumnDone(old(ch[..]), ZeroInputs(cc[..], ido, 3, l1, k), ido, 3, k, 0, Complex(taur, taui))
  {
    hide *;
    Readiness(cc, ch, ido, 3, l1, k);
    ghost var was, x, col := ch[..], cc[..], ZeroInputs(cc[..], ido, 3, l1, k);
    ghost var y := FixedButterfly(3, Complex(taur, taui), -1, col);
    var c0, c1 := CellAt(cc[..], ido, l1, 0, k, 0), CellAt(cc[..], ido, l1, 0, k, 1);
    var c2 := CellAt(cc[..], ido, l1, 0, k, 2);
    var cr2 := c1 + c2;
    ZeroValues3(x, ido, l1, k, taur, taui, c0, c1, c2, cr2);
    ZeroStored(was, ido, 3, k, y);
    ZeroPairStored(was, ido, 3, k, y, 1);
    Assign(ch, ido, 3, l1, 0, 0, k, c0 + cr2);
    Assign(ch, ido, 3, l1, ido - 1, 1, k, c0 + taur * cr2);
    Assign(ch, ido, 3, l1, 0, 2, k, taui * (c2 - c1));
    Finished(was, col, ido, 3, k, 0, Complex(taur, taui), 2);
    assert cc[..] == x;
  }

  /** The values radf3 stores at a pair of frequencies. */
  lemma PairValues3(x: seq<real>, wa: seq<real>, ido: nat, l1: nat, k: nat, i: nat, taur: real, taui: real,
                    a: Complex, d2: Complex, d3: Complex,
                    cr2: real, ci2: real, tr2: real, ti2: real, tr3: real, ti3: real)
    requires i >= 2 && ido > 0 && a == PairInput(x, wa, ido, l1, k, i, 0)
    requires d2 == PairInput(x, wa, ido, l1, k, i, 1) && d3 == PairInput(x, wa, ido, l1, k, i, 2)
    requires cr2 == d2.re + d3.re && ci2 == d2.im + d3.im
    requires tr2 == a.re + taur * cr2 && ti2 == a.im + taur * ci2
    requires tr3 == taui * (d2.im - d3.im) && ti3 == taui * (d3.re - d2.re)
    ensures
      var y := FixedButterfly(3, Complex(taur, taui), -1, PairInputs(x, wa, ido, 3, l1, k, i));
      && At(y, 0) == Complex(a.re + cr2, a.im + ci2)
      && At(y, 1) == Complex(tr2 + tr3, ti3 + ti2)
      && At(y, 2) == Complex(tr2 - tr3, -(ti3 - ti2))
  {
    hide PairInput, FixedButterfly;
    assert PairInputs(x, wa, ido, 3, l1, k, i) == [a, d2, d3];
    ThreeOutputs(a, d2, d3, Complex(taur, taui), -1);
  }

  method PairF3(ido: nat, l1: nat, cc: array<real>, ch: array<real>, wa: seq<real>, taur: real, taui: real,
                k: nat, i: nat, ghost q: nat)
    requires Ready(cc, ch, ido, 3, l1, k) && 2 <= i < ido && i == 2 * q
    modifies ch
    ensures ch[..] == ColumnDone(old(ch[..]), PairInputs(cc[..], wa, ido, 3, l1, k, i), ido, 3, k, q,
                                 Complex(taur, taui))
  {
    hide *;
    Readiness(cc, ch, ido, 3, l1, k);
    ghost var was, x, col := ch[..], cc[..], PairInputs(cc[..], wa, ido, 3, l1, k, i);
    ghost var y := FixedButterfly(3, Complex(taur, taui), -1, col);
    var ic := ido - i;
    var a, d2 := PairInput(cc[..], wa, ido, l1, k, i, 0), PairInput(cc[..], wa, ido, l1, k, i, 1);
    var d3 := PairInput(cc[..], wa, ido, l1, k, i, 2);
    var cr2, ci2 := d2.re + d3.re, d2.im + d3.im;
    var tr2, ti2 := a.re + taur * cr2, a.im + taur * ci2;
    var tr3, ti3 := taui * (d2.im - d3.im), taui * (d3.re - d2.re);
    PairValues3(x, wa, ido, l1, k, i, taur, taui, a, d2, d3, cr2, ci2, tr2, ti2, tr3, ti3);
    LowStored(was, ido, 3, k, q, y, 0);
    LowStored(was, ido, 3, k, q, y, 1);
    HighStored(was, ido, 3, k, q, y, 2, 1);
    Assign(ch, ido, 3, l1, i - 1, 0, k, a.re + cr2);
    Assign(ch, ido, 3, l1, i, 0, k, a.im + ci2);
    Assign(ch, ido, 3, l1, i - 1, 2, k, tr2 + tr3);
    Assign(ch, ido, 3, l1, i, 2, k, ti3 + ti2);
    Assign(ch, ido, 3, l1, ic - 1, 1, k, tr2 - tr3);
    Assign(ch, ido, 3, l1, ic, 1, k, ti3 - ti2);
    Finished(was, col, ido, 3, k, q, Complex(taur, taui), 3);
    assert cc[..] == x;
  }

  // ---------- radf4 ----------

  lemma ZeroValues4(x: seq<real>, ido: nat, l1: nat, k: nat, r: Complex,
                    c0: real, c1: real, c2: real, c3: real, tr1: real, tr2: real)
    requires c0 == CellAt(x, ido, l1, 0, k, 0) && c1 == CellAt(x, ido, l1, 0, k, 1)
    requires c2 == CellAt(x, ido, l1, 0, k, 2) && c3 == CellAt(x, ido, l1, 0, k, 3)
    requires tr1 == c3 + c1 && tr2 == c0 + c2
    ensures
      var y := FixedButterfly(4, r, -1, ZeroInputs(x, ido, 4, l1, k));
      At(y, 0).re == tr2 + tr1 && At(y, 1) == Complex(c0 - c2, c3 - c1) && At(y, 2).re == tr2 - tr1
  {
    hide CellAt;
  }

  method ZeroF4(ido: nat, l1: nat, cc: array<real>, ch: array<real>, ghost r: Complex, k: nat)
    requires Ready(cc, ch, ido, 4, l1, k)
    modifies ch
    ensures ch[..] == ColumnDone(old(ch[..]), ZeroInputs(cc[..], ido, 4, l1, k), ido, 4, k, 0, r)
  {
    hide *;
    Readiness(cc, ch, ido, 4, l1, k);
    ghost var was, x, col := ch[..], cc[..], ZeroInputs(cc[..], ido, 4, l1, k);
    ghost var y := FixedButterfly(4, r, -1, col);
    var c0, c1 := CellAt(cc[..], ido, l1, 0, k, 0), CellAt(cc[..], ido, l1, 0, k, 1);
    var c2, c3 := CellAt(cc[..], ido, l1, 0, k, 2), CellAt(cc[..], ido, l1, 0, k, 3);
    var tr1, tr2 := c3 + c1, c0 + c2;
    ZeroValues4(x, ido, l1, k, r, c0, c1, c2, c3, tr1, tr2);
    ZeroStored(was, ido, 4, k, y);
    ZeroPairStored(was, ido, 4, k, y, 1);
    ZeroLastStored(was, ido, 4, k, y, 2);
    Assign(ch, ido, 4, l1, 0, 0, k, tr2 + tr1);
    Assign(ch, ido, 4, l1, ido - 1, 1, k, c0 - c2);
    Assign(ch, ido, 4, l1, 0, 2, k, c3 - c1);
    Assign(ch, ido, 4, l1, ido - 1, 3, k, tr2 - tr1);
    Finished(was, col, ido, 4, k, 0, r, 3);
    assert cc[..] == x;
  }

  /** The eighths of a turn on four real values. */
  lemma EighthTurned(h: real, c: real)
    ensures Mul(Conj(Complex(h, h)), Complex(c, 0.0)) == Complex(h * c, -(h * c))
    ensures Mul(Conj(I), Complex(c, 0.0)) == Complex(0.0, -c)
    ensures Mul(Conj(Mul(Complex(h, h), I)), Complex(c, 0.0)) == Complex(-(h * c), -(h * c))
  {
    assert Mul(Complex(h, h), I) == Complex(-h, h);
  }

  lemma MiddleInputs4(x: seq<real>, ido: nat, l1: nat, k: nat, h: real, c0: real, c1: real, c2: real, c3: real)
    requires ido > 0
    requires c0 == CellAt(x, ido, l1, ido - 1, k, 0) && c1 == CellAt(x, ido, l1, ido - 1, k, 1)
    requires c2 == CellAt(x, ido, l1, ido - 1, k, 2) && c3 == CellAt(x, ido, l1, ido - 1, k, 3)
    ensures MiddleInputs(x, Halfway(4, Complex(h, h)), ido, 4, l1, k)
         == [Complex(c0, 0.0), Complex(h * c1, -(h * c1)), Complex(0.0, -c2), Complex(-(h * c3), -(h * c3))]
  {
    EighthTurned(h, c1);
    EighthTurned(h, c2);
    EighthTurned(h, c3);
    hide CellAt, Mul, Conj;
  }

  lemma Spread4(h: real, c1: real, c3: real)
    ensures h * (c1 - c3) == h * c1 - h * c3
    ensures -h * (c1 + c3) == -(h * c1) - h * c3
  {}

  lemma MiddleValues4(x: seq<real>, ido: nat, l1: nat, k: nat, hsqt2: real,
                      c0: real, c1: real, c2: real, c3: real, ti1: real, tr1: real)
    requires ido > 0
    requires c0 == CellAt(x, ido, l1, ido - 1, k, 0) && c1 == CellAt(x, ido, l1, ido - 1, k, 1)
    requires c2 == CellAt(x, ido, l1, ido - 1, k, 2) && c3 == CellAt(x, ido, l1, ido - 1, k, 3)
    requires ti1 == -hsqt2 * (c1 + c3) && tr1 == hsqt2 * (c1 - c3)
    ensures
      var r := Complex(hsqt2, hsqt2);
      var y := FixedButterfly(4, r, -1, MiddleInputs(x, Halfway(4, r), ido, 4, l1, k));
      At(y, 0) == Complex(c0 + tr1, ti1 - c2) && At(y, 1) == Complex(c0 - tr1, ti1 + c2)
  {
    MiddleInputs4(x, ido, l1, k, hsqt2, c0, c1, c2, c3);
    Spread4(hsqt2, c1, c3);
    hide CellAt, MiddleInputs, Halfway;
  }

  method MiddleF4(ido: nat, l1: nat, cc: array<real>, ch: array<real>, hsqt2: real, k: nat, ghost q: nat)
    requires Ready(cc, ch, ido, 4, l1, k) && ido == 2 * q
    modifies ch
    ensures ch[..] == ColumnDone(old(ch[..]), MiddleInputs(cc[..], Halfway(4, Complex(hsqt2, hsqt2)), ido, 4, l1, k),
                                 ido, 4, k, q, Complex(hsqt2, hsqt2))
  {
    hide *;
    Readiness(cc, ch, ido, 4, l1, k);
    ghost var r := Complex(hsqt2, hsqt2);
    ghost var was, x, col := ch[..], cc[..], MiddleInputs(cc[..], Halfway(4, r), ido, 4, l1, k);
    ghost var y := FixedButterfly(4, r, -1, col);
    var c0, c1 := CellAt(cc[..], ido, l1, ido - 1, k, 0), CellAt(cc[..], ido, l1, ido - 1, k, 1);
    var c2, c3 := CellAt(cc[..], ido, l1, ido - 1, k, 2), CellAt(cc[..], ido, l1, ido - 1, k, 3);
    var ti1 := -hsqt2 * (c1 + c3);
    var tr1 := hsqt2 * (c1 - c3);
    MiddleValues4(x, ido, l1, k, hsqt2, c0, c1, c2, c3, ti1, tr1);
    MiddlePairStored(was, ido, 4, k, q, y, 0);
    MiddlePairStored(was, ido, 4, k, q, y, 1);
    Assign(ch, ido, 4, l1, ido - 1, 0, k, c0 + tr1);
    Assign(ch, ido, 4, l1, 0, 1, k, ti1 - c2);
    Assign(ch, ido, 4, l1, ido - 1, 2, k, c0 - tr1);
    Assign(ch, ido, 4, l1, 0, 3, k, ti1 + c2);
    Finished(was, col, ido, 4, k, q, r, 2);
    assert cc[..] == x;
  }

  /** The values radf4 stores at a pair of frequencies. */
  lemma PairValues4(x: seq<real>, wa: seq<real>, ido: nat, l1: nat, k: nat, i: nat, r: Complex,
                    a: Complex, d2: Complex, d3: Complex, d4: Complex,
                    tr1: real, tr4: real, ti1: real, ti4: real, tr2: real, tr3: real, ti2: real, ti3: real)
    requires i >= 2 && ido > 0
    requires a == PairInput(x, wa, ido, l1, k, i, 0) && d2 == PairInput(x, wa, ido, l1, k, i, 1)
    requires d3 == PairInput(x, wa, ido, l1, k, i, 2) && d4 == PairInput(x, wa, ido, l1, k, i, 3)
    requires tr1 == d4.re + d2.re && tr4 == d4.re - d2.re && ti1 == d2.im + d4.im && ti4 == d2.im - d4.im
    requires tr2 == a.re + d3.re && tr3 == a.re - d3.re && ti2 == a.im + d3.im && ti3 == a.im - d3.im
    ensures
      var y := FixedButterfly(4, r, -1, PairInputs(x, wa, ido, 4, l1, k, i));
      && At(y, 0) == Complex(tr2 + tr1, ti1 + ti2)
      && At(y, 1) == Complex(tr3 + ti4, tr4 + ti3)
      && At(y, 2) == Complex(tr2 - tr1, -(ti1 - ti2))
      && At(y, 3) == Complex(tr3 - ti4, -(tr4 - ti3))
  {
    hide PairInput;
  }

  method PairF4(ido: nat, l1: nat, cc: array<real>, ch: array<real>, wa: seq<real>, ghost r: Complex, k: nat, i: nat,
                ghost q: nat)
    requires Ready(cc, ch, ido, 4, l1, k) && 2 <= i < ido && i == 2 * q
    modifies ch
    ensures ch[..] == ColumnDone(old(ch[..]), PairInputs(cc[..], wa, ido, 4, l1, k, i), ido, 4, k, q, r)
  {
    hide *;
    Readiness(cc, ch, ido, 4, l1, k);
    ghost var was, x, col := ch[..], cc[..], PairInputs(cc[..], wa, ido, 4, l1, k, i);
    ghost var y := FixedButterfly(4, r, -1, col);
    var ic := ido - i;
    var a, d2 := PairInput(cc[..], wa, ido, l1, k, i, 0), PairInput(cc[..], wa, ido, l1, k, i, 1);
    var d3, d4 := PairInput(cc[..], wa, ido, l1, k, i, 2), PairInput(cc[..], wa, ido, l1, k, i, 3);
    var tr1, tr4 := d4.re + d2.re, d4.re - d2.re;
    var ti1, ti4 := d2.im + d4.im, d2.im - d4.im;
    var tr2, tr3 := a.re + d3.re, a.re - d3.re;
    var ti2, ti3 := a.im + d3.im, a.im - d3.im;
    PairValues4(x, wa, ido, l1, k, i, r, a, d2, d3, d4, tr1, tr4, ti1, ti4, tr2, tr3, ti2, ti3);
    LowStored(was, ido, 4, k, q, y, 0);
    LowStored(was, ido, 4, k, q, y, 1);
    HighStored(was, ido, 4, k, q, y, 2, 3);
    HighStored(was, ido, 4, k, q, y, 3, 1);
    Assign(ch, ido, 4, l1, i - 1, 0, k, tr2 + tr1);
    Assign(ch, ido, 4, l1, i, 0, k, ti1 + ti2);
    Assign(ch, ido, 4, l1, i - 1, 2, k, tr3 + ti4);
    Assign(ch, ido, 4, l1, i, 2, k, tr4 + ti3);
    Assign(ch, ido, 4, l1, ic - 1, 3, k, tr2 - tr1);
    Assign(ch, ido, 4, l1, ic, 3, k, ti1 - ti2);
    Assign(ch, ido, 4, l1, ic - 1, 1, k, tr3 - ti4);
    Assign(ch, ido, 4, l1, ic, 1, k, tr4 - ti3);
    Finished(was, col, ido, 4, k, q, r, 4);
    assert cc[..] == x;
  }

  // ---------- radf5 ----------

  /** The values radf5 stores, by the sums and differences it forms. */
  lemma ForwardFive(col: seq<Complex>, r: Complex, tr11: real, ti11: real, tr12: real, ti12: real,
                    cr2: real, ci2: real, cr3: real, ci3: real, cr5: real, ci5: real, cr4: real, ci4: real)
    requires Literals5(r, tr11, ti11, tr12, ti12) && |col| == 5
    requires cr2 == col[4].re + col[1].re && ci5 == col[4].re - col[1].re
    requires ci2 == col[1].im + col[4].im && cr5 == col[1].im - col[4].im
    requires cr3 == col[3].re + col[2].re && ci4 == col[3].re - col[2].re
    requires ci3 == col[2].im + col[3].im && cr4 == col[2].im - col[3].im
    ensures
      var y := FixedButterfly(5, r, -1, col);
      var a, t5, u5 := col[0], MulPM(cr5, cr4, ti11, ti12), MulPM(ci5, ci4, ti11, ti12);
      var tr2, ti2 := a.re + tr11 * cr2 + tr12 * cr3, a.im + tr11 * ci2 + tr12 * ci3;
      var tr3, ti3 := a.re + tr12 * cr2 + tr11 * cr3, a.im + tr12 * ci2 + tr11 * ci3;
      && At(y, 0) == Complex(a.re + cr2 + cr3, a.im + ci2 + ci3)
      && At(y, 1) == Complex(tr2 + t5.re, u5.re + ti2)
      && At(y, 2) == Complex(tr3 + t5.im, u5.im + ti3)
      && At(y, 3) == Complex(tr3 - t5.im, -(u5.im - ti3))
      && At(y, 4) == Complex(tr2 - t5.re, -(u5.re - ti2))
  {
    var a, b, c, d, e := col[0], col[1], col[2], col[3], col[4];
    assert Signed(r, -1) == Complex(tr11, -ti11) && Signed(Mul(r, r), -1) == Complex(tr12, -ti12) by { hide Mul; }
    SharedByProducts(a, Complex(cr2, ci2), Complex(cr3, ci3), tr11, tr12);
    SharedByProducts(a, Complex(cr2, ci2), Complex(cr3, ci3), tr12, tr11);
    ApartBack(cr5, cr4, ci5, ci4, ti11, ti12);
    assert Add(b, e) == Complex(cr2, ci2) && Add(c, d) == Complex(cr3, ci3);
    assert Sub(b, e) == Complex(-ci5, cr5) && Sub(c, d) == Complex(-ci4, cr4);
    var t5, u5 := MulPM(cr5, cr4, ti11, ti12), MulPM(ci5, ci4, ti11, ti12);
    hide Mul, Signed, Shared5, Apart5, FixedButterfly, MulPM, At;
    FiveOutputs(col, r, -1, Complex(tr11, -ti11), Complex(tr12, -ti12),
                Complex(a.re + tr11 * cr2 + tr12 * cr3, a.im + tr11 * ci2 + tr12 * ci3), Complex(t5.re, u5.re),
                Complex(a.re + tr12 * cr2 + tr11 * cr3, a.im + tr12 * ci2 + tr11 * ci3), Complex(t5.im, u5.im));
  }

  lemma ZeroValues5(x: seq<real>, ido: nat, l1: nat, k: nat, r: Complex, tr11: real, ti11: real, tr12: real, ti12: real,
                    c0: real, c1: real, c2: real, c3: real, c4: real, cr2: real, ci5: real, cr3: real, ci4: real)
    requires Literals5(r, tr11, ti11, tr12, ti12) && c0 == CellAt(x, ido, l1, 0, k, 0)
    requires c1 == CellAt(x, ido, l1, 0, k, 1) && c2 == CellAt(x, ido, l1, 0, k, 2)
    requires c3 == CellAt(x, ido, l1, 0, k, 3) && c4 == CellAt(x, ido, l1, 0, k, 4)
    requires cr2 == c4 + c1 && ci5 == c4 - c1 && cr3 == c3 + c2 && ci4 == c3 - c2
    ensures
      var y := FixedButterfly(5, r, -1, ZeroInputs(x, ido, 5, l1, k));
      && At(y, 0).re == c0 + cr2 + cr3
      && At(y, 1) == Complex(c0 + tr11 * cr2 + tr12 * cr3, ti11 * ci5 + ti12 * ci4)
      && At(y, 2) == Complex(c0 + tr12 * cr2 + tr11 * cr3, ti12 * ci5 - ti11 * ci4)
  {
    hide CellAt, FixedButterfly, Literals5;
    ForwardFive(ZeroInputs(x, ido, 5, l1, k), r, tr11, ti11, tr12, ti12, cr2, 0.0, cr3, 0.0, 0.0, ci5, 0.0, ci4);
  }

  method ZeroF5(ido: nat, l1: nat, cc: array<real>, ch: array<real>, tr11: real, ti11: real, tr12: real, ti12: real,
                ghost r: Complex, k: nat)
    requires Ready(cc, ch, ido, 5, l1, k) && Literals5(r, tr11, ti11, tr12, ti12)
    modifies ch
    ensures ch[..] == ColumnDone(old(ch[..]), ZeroInputs(cc[..], ido, 5, l1, k), ido, 5, k, 0, r)
  {
    hide *;
    Readiness(cc, ch, ido, 5, l1, k);
    ghost var was, x, col := ch[..], cc[..], ZeroInputs(cc[..], ido, 5, l1, k);
    ghost var y := FixedButterfly(5, r, -1, col);
    var c0, c1 := CellAt(cc[..], ido, l1, 0, k, 0), CellAt(cc[..], ido, l1, 0, k, 1);
    var c2, c3 := CellAt(cc[..], ido, l1, 0, k, 2), CellAt(cc[..], ido, l1, 0, k, 3);
    var c4 := CellAt(cc[..], ido, l1, 0, k, 4);
    var cr2, ci5 := c4 + c1, c4 - c1;
    var cr3, ci4 := c3 + c2, c3 - c2;
    ZeroValues5(x, ido, l1, k, r, tr11, ti11, tr12, ti12, c0, c1, c2, c3, c4, cr2, ci5, cr3, ci4);
    ZeroStored(was, ido, 5, k, y);
    ZeroPairStored(was, ido, 5, k, y, 1);
    ZeroPairStored(was, ido, 5, k, y, 2);
    Assign(ch, ido, 5, l1, 0, 0, k, c0 + cr2 + cr3);
    Assign(ch, ido, 5, l1, ido - 1, 1, k, c0 + tr11 * cr2 + tr12 * cr3);
    Assign(ch, ido, 5, l1, 0, 2, k, ti11 * ci5 + ti12 * ci4);
    Assign(ch, ido, 5, l1, ido - 1, 3, k, c0 + tr12 * cr2 + tr11 * cr3);
    Assign(ch, ido, 5, l1, 0, 4, k, ti12 * ci5 - ti11 * ci4);
    Finished(was, col, ido, 5, k, 0, r, 3);
    assert cc[..] == x;
  }

  lemma PairInputs5(x: seq<real>, wa: seq<real>, ido: nat, l1: nat, k: nat, i: nat,
                    a: Complex, d2: Complex, d3: Complex, d4: Complex, d5: Complex)
    requires i >= 2 && ido > 0 && a == PairInput(x, wa, ido, l1, k, i, 0)
    requires d2 == PairInput(x, wa, ido, l1, k, i, 1) && d3 == PairInput(x, wa, ido, l1, k, i, 2)
    requires d4 == PairInput(x, wa, ido, l1, k, i, 3) && d5 == PairInput(x, wa, ido, l1, k, i, 4)
    ensures PairInputs(x, wa, ido, 5, l1, k, i) == [a, d2, d3, d4, d5]
  {
    hide PairInput;
  }

  method PairF5(ido: nat, l1: nat, cc: array<real>, ch: array<real>, wa: seq<real>,
                tr11: real, ti11: real, tr12: real, ti12: real, ghost r: Complex, k: nat, i: nat, ghost q: nat)
    requires Ready(cc, ch, ido, 5, l1, k) && 2 <= i < ido && i == 2 * q && Literals5(r, tr11, ti11, tr12, ti12)
    modifies ch
    ensures ch[..] == ColumnDone(old(ch[..]), PairInputs(cc[..], wa, ido, 5, l1, k, i), ido, 5, k, q, r)
  {
    hide *;
    Readiness(cc, ch, ido, 5, l1, k);
    ghost var was, x, col := ch[..], cc[..], PairInputs(cc[..], wa, ido, 5, l1, k, i);
    ghost var y := FixedButterfly(5, r, -1, col);
    var ic := ido - i;
    var a, d2 := PairInput(cc[..], wa, ido, l1, k, i, 0), PairInput(cc[..], wa, ido, l1, k, i, 1);
    var d3, d4 := PairInput(cc[..], wa, ido, l1, k, i, 2), PairInput(cc[..], wa, ido, l1, k, i, 3);
    var d5 := PairInput(cc[..], wa, ido, l1, k, i, 4);
    var cr2, ci5 := d5.re + d2.re, d5.re - d2.re;
    var ci2, cr5 := d2.im + d5.im, d2.im - d5.im;
    var cr3, ci4 := d4.re + d3.re, d4.re - d3.re;
    var ci3, cr4 := d3.im + d4.im, d3.im - d4.im;
    var tr2, ti2 := a.re + tr11 * cr2 + tr12 * cr3, a.im + tr11 * ci2 + tr12 * ci3;
    var tr3, ti3 := a.re + tr12 * cr2 + tr11 * cr3, a.im + tr12 * ci2 + tr11 * ci3;
    var t5 := MulPM(cr5, cr4, ti11, ti12);
    var u5 := MulPM(ci5, ci4, ti11, ti12);
    PairInputs5(x, wa, ido, l1, k, i, a, d2, d3, d4, d5);
    ForwardFive(col, r, tr11, ti11, tr12, ti12, cr2, ci2, cr3, ci3, cr5, ci5, cr4, ci4);
    LowStored(was, ido, 5, k, q, y, 0);
    LowStored(was, ido, 5, k, q, y, 1);
    LowStored(was, ido, 5, k, q, y, 2);
    HighStored(was, ido, 5, k, q, y, 3, 3);
    HighStored(was, ido, 5, k, q, y, 4, 1);
    Assign(ch, ido, 5, l1, i - 1, 0, k, a.re + cr2 + cr3);
    Assign(ch, ido, 5, l1, i, 0, k, a.im + ci2 + ci3);
    Assign(ch, ido, 5, l1, i - 1, 2, k, tr2 + t5.re);
    Assign(ch, ido, 5, l1, i, 2, k, u5.re + ti2);
    Assign(ch, ido, 5, l1, i - 1, 4, k, tr3 + t5.im);
    Assign(ch, ido, 5, l1, i, 4, k, u5.im + ti3);
    Assign(ch, ido, 5, l1, ic - 1, 3, k, tr3 - t5.im);
    Assign(ch, ido, 5, l1, ic, 3, k, u5.im - ti3);
    Assign(ch, ido, 5, l1, ic - 1, 1, k, tr2 - t5.re);
    Assign(ch, ido, 5, l1, ic, 1, k, u5.re - ti2);
    Finished(was, col, ido, 5, k, q, r, 5);
    assert cc[..] == x;
  }

  // ---------- any radix ----------

  /** One column of the pass for radix `ip`. */
  method StoreColumn(ido: nat, ip: nat, l1: nat, cc: array<real>, ch: array<real>, wa: seq<real>, r: Complex,
                     k: nat, q: nat)
    requires Ready(cc, ch, ido, ip, l1, k) && LiteralsFit(ip, ido, r) && q < ido && 2 * q <= ido
    modifies ch
    ensures ch[..] == ColumnDone(old(ch[..]), TurnedColumn(cc[..], wa, Halfway(ip, r), ido, ip, l1, k, q),
                                 ido, ip, k, q, r)
  {
    hide *;
    LiteralsShape(ip, ido, r);
    Readiness(cc, ch, ido, ip, l1, k);
    ghost var x := cc[..];
    if q == 0 {
      TurnedZero(x, wa, Halfway(ip, r), ido, ip, l1, k);
      if ip == 2 {
        ZeroF2(ido, l1, cc, ch, r, k);
      } else if ip == 3 {
        ZeroF3(ido, l1, cc, ch, r.re, r.im, k);
      } else if ip == 4 {
        ZeroF4(ido, l1, cc, ch, r, k);
      } else {
        var s := Mul(r, r);
        FiveLiterals(r, s);
        ZeroF5(ido, l1, cc, ch, r.re, r.im, s.re, s.im, r, k);
      }
    } else if 2 * q == ido {
      TurnedMiddle(x, wa, Halfway(ip, r), ido, ip, l1, k, q);
      if ip == 2 {
        MiddleF2(ido, l1, cc, ch, r, k, q);
      } else {
        MiddleF4(ido, l1, cc, ch, r.re, k, q);
      }
    } else {
      TurnedPair(x, wa, Halfway(ip, r), ido, ip, l1, k, q);
      if ip == 2 {
        PairF2(ido, l1, cc, ch, wa, r, k, 2 * q, q);
      } else if ip == 3 {
        PairF3(ido, l1, cc, ch, wa, r.re, r.im, k, 2 * q, q);
      } else if ip == 4 {
        PairF4(ido, l1, cc, ch, wa, r, k, 2 * q, q);
      } else {
        var s := Mul(r, r);
        FiveLiterals(r, s);
        PairF5(ido, l1, cc, ch, wa, r.re, r.im, s.re, s.im, r, k, 2 * q, q);
      }
    }
    assert cc[..] == x;
  }
}
