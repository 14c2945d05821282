/** The generic real pass, forward: radix any odd prime from 5 on, inside both buffers. */
module RealPassG {
  import opened Basics
  import opened Complexes
  import opened Sums
  import opened Dft
  import opened RadixPass
  import opened Butterflies
  import opened Passes
  import opened Primes
  import opened PassG
  import opened RealSpectra
  import opened RealStages
  import opened RealSymmetry
  import opened RealColumns
  import opened RealPasses
  import opened RealRows
  import opened RealParts

  /** A pair of cells is a frequency of a block. */
  lemma CellBin(x: seq<real>, ido: nat, l1: nat, q: nat, k: nat, j: nat)
    ensures 0 < q && 2 * q < ido ==>
              BlockBin(x, ido, Idx(k, l1, j), q) == Complex(CellAt(x, ido, l1, 2 * q - 1, k, j),
                                                            CellAt(x, ido, l1, 2 * q, k, j))
    ensures ido > 0 ==> BlockBin(x, ido, Idx(k, l1, j), 0) == Complex(CellAt(x, ido, l1, 0, k, j), 0.0)
  {
    var b := Idx(k, l1, j);
    assert Idx(0, ido, b) == Prod(ido, b);
    if 0 < q && 2 * q < ido {
      assert Idx(2 * q - 1, ido, b) == Prod(ido, b) + 2 * q - 1 && Idx(2 * q, ido, b) == Prod(ido, b) + 2 * q;
    }
    hide Idx, Prod;
  }

  // ---------- sums and differences in place ----------

  /** The pair of rows a row belongs to. */
  function Mirror(ip: nat, row: nat): nat { if row <= ip / 2 then row else if row < ip then ip - row else 0 }

  /** The turned inputs at position `k` and frequency `q`. */
  function Inputs(x: seq<real>, wa: seq<real>, ido: nat, ip: nat, l1: nat, k: nat, q: nat): (col: seq<Complex>)
    ensures |col| == ip
  {
    TurnedColumn(x, wa, [], ido, ip, l1, k, q)
  }

  function PairedCell(col: seq<Complex>, row: nat, i: nat): real {
    if row == 0 then Part(At(col, 0), i)
    else if row <= |col| / 2 then Part(SumOf(col, row - 1), i)
    else if row < |col| then OddSide(TurnBack(DiffOf(col, |col| - row - 1)), i)
    else 0.0
  }

  /** Whether the loops, which take the zero frequencies last, have come to a cell. */
  predicate PairReached(ip: nat, zeros: bool, j: nat, k: nat, i: nat, a: nat, b: nat, row: nat) {
    var p := Mirror(ip, row);
    if a == 0 then zeros && (p < j || (p == j && b < k))
    else zeros || p < j || (p == j && (b < k || (b == k && a < i)))
  }

  function Pairing(x: seq<real>, wa: seq<real>, ido: nat, ip: nat, l1: nat, zeros: bool, j: nat, k: nat,
                   i: nat): (nat, nat, nat) -> real
  {
    (a: nat, b: nat, row: nat) =>
      if row > 0 && PairReached(ip, zeros, j, k, i, a, b, row)
          then PairedCell(Inputs(x, wa, ido, ip, l1, b, (a + 1) / 2), row, a)
      else CellAt(x, ido, l1, a, b, row)
  }

  function Paired3(x: seq<real>, wa: seq<real>, ido: nat, ip: nat, l1: nat): (nat, nat, nat) -> real {
    (a: nat, b: nat, row: nat) => PairedCell(Inputs(x, wa, ido, ip, l1, b, (a + 1) / 2), row, a)
  }

  lemma InputIs(x: seq<real>, wa: seq<real>, ido: nat, ip: nat, l1: nat, k: nat, q: nat, j: nat)
    requires j < ip && ido > 0
    ensures 0 < q && 2 * q < ido && j > 0 ==>
              Inputs(x, wa, ido, ip, l1, k, q)[j]
              == Mul(Conj(FactorAt(wa, ido, q, j)), Complex(CellAt(x, ido, l1, 2 * q - 1, k, j),
                                                            CellAt(x, ido, l1, 2 * q, k, j)))
    ensures 0 < q && 2 * q < ido ==>
              Inputs(x, wa, ido, ip, l1, k, q)[0]
                == Complex(CellAt(x, ido, l1, 2 * q - 1, k, 0), CellAt(x, ido, l1, 2 * q, k, 0))
    ensures Inputs(x, wa, ido, ip, l1, k, 0)[j] == Complex(CellAt(x, ido, l1, 0, k, j), 0.0)
  {
    CellBin(x, ido, l1, q, k, j);
    CellBin(x, ido, l1, q, k, 0);
    ConjOne();
    MulOne(BlockBin(x, ido, Idx(k, l1, 0), q));
    MulOne(BlockBin(x, ido, Idx(k, l1, j), 0));
    hide Mul, Conj, BlockBin, CellAt, FactorAt, Idx;
  }

  lemma RowZeroIs(x: seq<real>, wa: seq<real>, ido: nat, ip: nat, l1: nat, a: nat, b: nat)
    requires a < ido && ido % 2 == 1 && ip > 0
    ensures CellAt(x, ido, l1, a, b, 0) == PairedCell(Inputs(x, wa, ido, ip, l1, b, (a + 1) / 2), 0, a)
  {
    InputIs(x, wa, ido, ip, l1, b, (a + 1) / 2, 0);
    hide CellAt, Inputs;
  }

  lemma PairParts(col: seq<Complex>, j: nat)
    requires 0 < j <= |col| / 2 && |col| % 2 == 1
    ensures SumOf(col, j - 1) == Add(col[j], col[|col| - j])
    ensures TurnBack(DiffOf(col, j - 1)) == Complex(col[j].im - col[|col| - j].im, col[|col| - j].re - col[j].re)
  {}

  /** One pair of cells of two mirrored rows. */
  method PairUp(ido: nat, l1: nat, ip: nat, cc: array<real>, wa: seq<real>, j: nat, k: nat, i: nat, ghost x: seq<real>)
    requires Cells(cc[..], ido, l1, ip, Pairing(x, wa, ido, ip, l1, false, j, k, i))
    requires 0 < j <= ip / 2 && ip % 2 == 1 && k < l1 && i % 2 == 1 && i + 1 < ido
    modifies cc
    ensures Cells(cc[..], ido, l1, ip, Pairing(x, wa, ido, ip, l1, false, j, k, i + 2))
  {
    hide *;
    var q, jc := (i + 1) / 2, ip - j;
    ghost var f := Pairing(x, wa, ido, ip, l1, false, j, k, i);
    CellIs(cc[..], ido, l1, ip, f, i, k, j);
    CellIs(cc[..], ido, l1, ip, f, i + 1, k, j);
    CellIs(cc[..], ido, l1, ip, f, i, k, jc);
    CellIs(cc[..], ido, l1, ip, f, i + 1, k, jc);
    NotReached(x, wa, ido, ip, l1, j, k, i);
    var z1 := Mul(Conj(FactorAt(wa, ido, q, j)),
                  Complex(CellAt(cc[..], ido, l1, i, k, j), CellAt(cc[..], ido, l1, i + 1, k, j)));
    var z2 := Mul(Conj(FactorAt(wa, ido, q, jc)),
                  Complex(CellAt(cc[..], ido, l1, i, k, jc), CellAt(cc[..], ido, l1, i + 1, k, jc)));
    SetCell(cc, ido, l1, ip, i, k, j, z1.re + z2.re, f);
    ghost var f1 := SetAt(f, i, k, j, z1.re + z2.re);
    SetCell(cc, ido, l1, ip, i, k, jc, z1.im - z2.im, f1);
    ghost var f2 := SetAt(f1, i, k, jc, z1.im - z2.im);
    SetCell(cc, ido, l1, ip, i + 1, k, j, z1.im + z2.im, f2);
    ghost var f3 := SetAt(f2, i + 1, k, j, z1.im + z2.im);
    SetCell(cc, ido, l1, ip, i + 1, k, jc, z2.re - z1.re, f3);
    PairedUp(x, wa, ido, ip, l1, j, k, i, z1, z2, cc[..]);
  }

  lemma NotReached(x: seq<real>, wa: seq<real>, ido: nat, ip: nat, l1: nat, j: nat, k: nat, i: nat)
    requires 0 < j <= ip / 2 && ip % 2 == 1 && i > 0
    ensures var f := Pairing(x, wa, ido, ip, l1, false, j, k, i);
            && f(i, k, j) == CellAt(x, ido, l1, i, k, j) && f(i + 1, k, j) == CellAt(x, ido, l1, i + 1, k, j)
            && f(i, k, ip - j) == CellAt(x, ido, l1, i, k, ip - j) &&
                f(i + 1, k, ip - j) == CellAt(x, ido, l1, i + 1, k, ip - j)
  {
    hide CellAt, PairedCell;
  }

  lemma PairedUp(x: seq<real>, wa: seq<real>, ido: nat, ip: nat, l1: nat, j: nat, k: nat, i: nat, z1: Complex,
                 z2: Complex, now: seq<real>)
    requires 0 < j <= ip / 2 && ip % 2 == 1 && k < l1 && i % 2 == 1 && i + 1 < ido
    requires z1 == Mul(Conj(FactorAt(wa, ido, (i + 1) / 2, j)),
                       Complex(CellAt(x, ido, l1, i, k, j), CellAt(x, ido, l1, i + 1, k, j)))
    requires z2 == Mul(Conj(FactorAt(wa, ido, (i + 1) / 2, ip - j)),
                       Complex(CellAt(x, ido, l1, i, k, ip - j), CellAt(x, ido, l1, i + 1, k, ip - j)))
    requires var f := Pairing(x, wa, ido, ip, l1, false, j, k, i);
             Cells(now, ido, l1, ip, SetAt(SetAt(SetAt(SetAt(f, i, k, j, z1.re + z2.re), i, k, ip - j, z1.im - z2.im),
                                                 i + 1, k, j, z1.im + z2.im), i + 1, k, ip - j, z2.re - z1.re))
    ensures Cells(now, ido, l1, ip, Pairing(x, wa, ido, ip, l1, false, j, k, i + 2))
  {
    hide *;
    PairedValues(x, wa, ido, ip, l1, j, k, i, z1, z2);
    var f, g := Pairing(x, wa, ido, ip, l1, false, j, k, i), Pairing(x, wa, ido, ip, l1, false, j, k, i + 2);
    var h := SetAt(SetAt(SetAt(SetAt(f, i, k, j, z1.re + z2.re), i, k, ip - j, z1.im - z2.im), i + 1, k, j,
                         z1.im + z2.im), i + 1, k, ip - j, z2.re - z1.re);
    forall a: nat, b: nat, row: nat | a < ido && b < l1 && row < ip
      ensures h(a, b, row) == g(a, b, row)
    {
      PairAdvances(x, wa, ido, ip, l1, j, k, i, z1.re + z2.re, z1.im - z2.im, z1.im + z2.im, z2.re - z1.re, a, b, row);
    }
    CellsSame(now, ido, l1, ip, h, g);
  }

  lemma PairedValues(x: seq<real>, wa: seq<real>, ido: nat, ip: nat, l1: nat, j: nat, k: nat, i: nat, z1: Complex,
                     z2: Complex)
    requires 0 < j <= ip / 2 && ip % 2 == 1 && i % 2 == 1 && i + 1 < ido
    requires z1 == Mul(Conj(FactorAt(wa, ido, (i + 1) / 2, j)),
                       Complex(CellAt(x, ido, l1, i, k, j), CellAt(x, ido, l1, i + 1, k, j)))
    requires z2 == Mul(Conj(FactorAt(wa, ido, (i + 1) / 2, ip - j)),
                       Complex(CellAt(x, ido, l1, i, k, ip - j), CellAt(x, ido, l1, i + 1, k, ip - j)))
    ensures var col := Inputs(x, wa, ido, ip, l1, k, (i + 1) / 2);
            && PairedCell(col, j, i) == z1.re + z2.re && PairedCell(col, j, i + 1) == z1.im + z2.im
            && PairedCell(col, ip - j, i) == z1.im - z2.im && PairedCell(col, ip - j, i + 1) == z2.re - z1.re
  {
    var q, col := (i + 1) / 2, Inputs(x, wa, ido, ip, l1, k, (i + 1) / 2);
    InputIs(x, wa, ido, ip, l1, k, q, j);
    InputIs(x, wa, ido, ip, l1, k, q, ip - j);
    PairParts(col, j);
    assert 2 * q == i + 1;
    hide Mul, Conj, CellAt, Inputs, FactorAt, SumOf, DiffOf, TurnBack;
  }

  lemma PairAdvances(x: seq<real>, wa: seq<real>, ido: nat, ip: nat, l1: nat, j: nat, k: nat, i: nat,
                     v1: real, v2: real, v3: real, v4: real, a: nat, b: nat, row: nat)
    requires 0 < j <= ip / 2 && ip % 2 == 1 && i % 2 == 1 && row < ip
    requires v1 == PairedCell(Inputs(x, wa, ido, ip, l1, k, (i + 1) / 2), j, i) &&
             v2 == PairedCell(Inputs(x, wa, ido, ip, l1, k, (i + 1) / 2), ip - j, i)
    requires v3 == PairedCell(Inputs(x, wa, ido, ip, l1, k, (i + 1) / 2), j, i + 1) &&
             v4 == PairedCell(Inputs(x, wa, ido, ip, l1, k, (i + 1) / 2), ip - j, i + 1)
    ensures SetAt(SetAt(SetAt(SetAt(Pairing(x, wa, ido, ip, l1, false, j, k, i), i, k, j, v1), i, k, ip - j, v2), i + 1,
                        k, j, v3), i + 1, k, ip - j, v4)(a, b, row)
         == Pairing(x, wa, ido, ip, l1, false, j, k, i + 2)(a, b, row)
  {
    hide PairedCell, Inputs, CellAt;
    assert (i + 1 + 1) / 2 == (i + 1) / 2;
  }

  lemma PairingTurns(x: seq<real>, wa: seq<real>, ido: nat, ip: nat, l1: nat, j: nat, k: nat, i: nat, now: seq<real>)
    requires ip % 2 == 1 && j > 0
    ensures Cells(now, ido, l1, ip, Pairing(x, wa, ido, ip, l1, false, j, k, i)) && i >= ido ==>
              Cells(now, ido, l1, ip, Pairing(x, wa, ido, ip, l1, false, j, k + 1, 1))
    ensures Cells(now, ido, l1, ip, Pairing(x, wa, ido, ip, l1, false, j, l1, 1)) ==>
              Cells(now, ido, l1, ip, Pairing(x, wa, ido, ip, l1, false, j + 1, 0, 1))
    ensures Cells(now, ido, l1, ip, Pairing(x, wa, ido, ip, l1, true, j, l1, 0)) ==>
              Cells(now, ido, l1, ip, Pairing(x, wa, ido, ip, l1, true, j + 1, 0, 0))
  {
    hide CellAt, PairedCell;
  }

  lemma PairingStarts(x: seq<real>, wa: seq<real>, ido: nat, ip: nat, l1: nat)
    requires |x| == Times3(l1, ip, ido)
    ensures Cells(x, ido, l1, ip, Pairing(x, wa, ido, ip, l1, false, 1, 0, 1))
  {
    hide CellAt, PairedCell, Times3;
    forall a: nat, b: nat, row: nat | row < ip
      ensures CellAt(x, ido, l1, a, b, row) == Pairing(x, wa, ido, ip, l1, false, 1, 0, 1)(a, b, row)
    {}
  }

  lemma ZerosFollow(x: seq<real>, wa: seq<real>, ido: nat, ip: nat, l1: nat, now: seq<real>)
    requires Cells(now, ido, l1, ip, Pairing(x, wa, ido, ip, l1, false, ip / 2 + 1, 0, 1)) && ip % 2 == 1
    ensures Cells(now, ido, l1, ip, Pairing(x, wa, ido, ip, l1, true, 1, 0, 0))
  {
    hide CellAt, PairedCell;
  }

  lemma PairingEnds(x: seq<real>, wa: seq<real>, ido: nat, ip: nat, l1: nat, now: seq<real>)
    requires Cells(now, ido, l1, ip, Pairing(x, wa, ido, ip, l1, true, ip / 2 + 1, 0, 0)) && ip % 2 == 1 && ido % 2 == 1
    ensures Cells(now, ido, l1, ip, Paired3(x, wa, ido, ip, l1))
  {
    var f, g := Pairing(x, wa, ido, ip, l1, true, ip / 2 + 1, 0, 0), Paired3(x, wa, ido, ip, l1);
    forall a: nat, b: nat, row: nat | a < ido && b < l1 && row < ip
      ensures f(a, b, row) == g(a, b, row)
    {
      if row == 0 { RowZeroIs(x, wa, ido, ip, l1, a, b); }
      hide CellAt, PairedCell;
    }
    hide Pairing, Paired3;
    CellsSame(now, ido, l1, ip, f, g);
  }

  /** One pair of zero frequencies. */
  method PairZero(ido: nat, l1: nat, ip: nat, cc: array<real>, wa: seq<real>, j: nat, k: nat, ghost x: seq<real>)
    requires Cells(cc[..], ido, l1, ip, Pairing(x, wa, ido, ip, l1, true, j, k, 0))
    requires 0 < j <= ip / 2 && ip % 2 == 1 && k < l1 && ido > 0
    modifies cc
    ensures Cells(cc[..], ido, l1, ip, Pairing(x, wa, ido, ip, l1, true, j, k + 1, 0))
  {
    var jc := ip - j;
    ghost var f := Pairing(x, wa, ido, ip, l1, true, j, k, 0);
    CellIs(cc[..], ido, l1, ip, f, 0, k, j);
    CellIs(cc[..], ido, l1, ip, f, 0, k, jc);
    assert f(0, k, j) == CellAt(x, ido, l1, 0, k, j) && f(0, k, jc) == CellAt(x, ido, l1, 0, k, jc);
    hide *;
    var t1, t2 := CellAt(cc[..], ido, l1, 0, k, j), CellAt(cc[..], ido, l1, 0, k, jc);
    SetCell(cc, ido, l1, ip, 0, k, j, t1 + t2, f);
    SetCell(cc, ido, l1, ip, 0, k, jc, t2 - t1, SetAt(f, 0, k, j, t1 + t2));
    ZeroPaired(x, wa, ido, ip, l1, j, k, t1, t2, cc[..]);
  }

  lemma ZeroPaired(x: seq<real>, wa: seq<real>, ido: nat, ip: nat, l1: nat, j: nat, k: nat, t1: real, t2: real,
                   now: seq<real>)
    requires 0 < j <= ip / 2 && ip % 2 == 1 && k < l1 && ido > 0
    requires t1 == CellAt(x, ido, l1, 0, k, j) && t2 == CellAt(x, ido, l1, 0, k, ip - j)
    requires Cells(now, ido, l1, ip, SetAt(SetAt(Pairing(x, wa, ido, ip, l1, true, j, k, 0), 0, k, j, t1 + t2), 0, k,
                                           ip - j, t2 - t1))
    ensures Cells(now, ido, l1, ip, Pairing(x, wa, ido, ip, l1, true, j, k + 1, 0))
  {
    hide *;
    var h, g := SetAt(SetAt(Pairing(x, wa, ido, ip, l1, true, j, k, 0), 0, k, j, t1 + t2), 0, k, ip - j, t2 - t1),
        Pairing(x, wa, ido, ip, l1, true, j, k + 1, 0);
    ZeroPairValues(x, wa, ido, ip, l1, j, k, t1, t2);
    forall a: nat, b: nat, row: nat | a < ido && b < l1 && row < ip
      ensures h(a, b, row) == g(a, b, row)
    {
      ZeroPairedAt(x, wa, ido, ip, l1, j, k, t1 + t2, t2 - t1, a, b, row);
    }
    CellsSame(now, ido, l1, ip, h, g);
  }

  lemma RealPairCells(col: seq<Complex>, j: nat, t1: real, t2: real)
    requires 0 < j <= |col| / 2 && |col| % 2 == 1 && col[j] == Complex(t1, 0.0) && col[|col| - j] == Complex(t2, 0.0)
    ensures PairedCell(col, j, 0) == t1 + t2 && PairedCell(col, |col| - j, 0) == t2 - t1
  {
    PairParts(col, j);
    hide SumOf, DiffOf, TurnBack;
  }

  lemma ZeroPairValues(x: seq<real>, wa: seq<real>, ido: nat, ip: nat, l1: nat, j: nat, k: nat, t1: real, t2: real)
    requires 0 < j <= ip / 2 && ip % 2 == 1 && k < l1 && ido > 0
    requires t1 == CellAt(x, ido, l1, 0, k, j) && t2 == CellAt(x, ido, l1, 0, k, ip - j)
    ensures PairedCell(Inputs(x, wa, ido, ip, l1, k, 0), j, 0) == t1 + t2
    ensures PairedCell(Inputs(x, wa, ido, ip, l1, k, 0), ip - j, 0) == t2 - t1
  {
    hide *;
    InputIs(x, wa, ido, ip, l1, k, 0, j);
    InputIs(x, wa, ido, ip, l1, k, 0, ip - j);
    RealPairCells(Inputs(x, wa, ido, ip, l1, k, 0), j, t1, t2);
  }

  lemma ZeroPairedAt(x: seq<real>, wa: seq<real>, ido: nat, ip: nat, l1: nat, j: nat, k: nat, v1: real, v2: real,
                     a: nat, b: nat, row: nat)
    requires 0 < j <= ip / 2 && ip % 2 == 1 && k < l1 && a < ido && b < l1 && row < ip
    requires v1 == PairedCell(Inputs(x, wa, ido, ip, l1, k, 0), j, 0)
    requires v2 == PairedCell(Inputs(x, wa, ido, ip, l1, k, 0), ip - j, 0)
    ensures SetAt(SetAt(Pairing(x, wa, ido, ip, l1, true, j, k, 0), 0, k, j, v1), 0, k, ip - j, v2)(a, b, row)
         == Pairing(x, wa, ido, ip, l1, true, j, k + 1, 0)(a, b, row)
  {
    hide CellAt, Inputs, PairedCell;
  }

  /** All pairs of cells of two mirrored rows at one position. */
  method PairPosition(ido: nat, l1: nat, ip: nat, cc: array<real>, wa: seq<real>, j: nat, k: nat, ghost x: seq<real>)
    requires Cells(cc[..], ido, l1, ip, Pairing(x, wa, ido, ip, l1, false, j, k, 1))
    requires 0 < j <= ip / 2 && ip % 2 == 1 && k < l1 && ido % 2 == 1
    modifies cc
    ensures Cells(cc[..], ido, l1, ip, Pairing(x, wa, ido, ip, l1, false, j, k + 1, 1))
  {
    hide *;
    var i := 1;
    while i + 1 < ido
      invariant i % 2 == 1 && i <= ido
      invariant Cells(cc[..], ido, l1, ip, Pairing(x, wa, ido, ip, l1, false, j, k, i))
    {
      PairUp(ido, l1, ip, cc, wa, j, k, i, x);
      i := i + 2;
    }
    PairingTurns(x, wa, ido, ip, l1, j, k, i, cc[..]);
  }

  /** The first loops of radfg: turned inputs become sums and differences in their own rows. */
  method PairInputs(ido: nat, l1: nat, ip: nat, cc: array<real>, wa: seq<real>)
    requires cc.Length == Times3(l1, ip, ido) && ip % 2 == 1 && ido % 2 == 1
    modifies cc
    ensures Cells(cc[..], ido, l1, ip, Paired3(old(cc[..]), wa, ido, ip, l1))
  {
    ghost var x := cc[..];
    hide *;
    PairingStarts(x, wa, ido, ip, l1);
    for j := 1 to ip / 2 + 1
      invariant Cells(cc[..], ido, l1, ip, Pairing(x, wa, ido, ip, l1, false, j, 0, 1))
    {
      for k := 0 to l1
        invariant Cells(cc[..], ido, l1, ip, Pairing(x, wa, ido, ip, l1, false, j, k, 1))
      {
        PairPosition(ido, l1, ip, cc, wa, j, k, x);
      }
      PairingTurns(x, wa, ido, ip, l1, j, 0, 0, cc[..]);
    }
    ZerosFollow(x, wa, ido, ip, l1, cc[..]);
    for j := 1 to ip / 2 + 1
      invariant Cells(cc[..], ido, l1, ip, Pairing(x, wa, ido, ip, l1, true, j, 0, 0))
    {
      for k := 0 to l1
        invariant Cells(cc[..], ido, l1, ip, Pairing(x, wa, ido, ip, l1, true, j, k, 0))
      {
        PairZero(ido, l1, ip, cc, wa, j, k, x);
      }
      PairingTurns(x, wa, ido, ip, l1, j, 0, 0, cc[..]);
    }
    PairingEnds(x, wa, ido, ip, l1, cc[..]);
  }

  // ---------- mixing ----------

  function MixedCell(col: seq<Complex>, v: Complex, row: nat, i: nat): real {
    if row == 0 then Part(DftAt(col, v, 0), i)
    else if row <= |col| / 2 then Part(EvenPart(col, v, row), i)
    else if row < |col| then OddSide(OddPart(col, v, |col| - row), i)
    else 0.0
  }

  function Mixed3(x: seq<real>, wa: seq<real>, ido: nat, ip: nat, l1: nat, v: Complex): (nat, nat, nat) -> real {
    (a: nat, b: nat, row: nat) => MixedCell(Inputs(x, wa, ido, ip, l1, b, (a + 1) / 2), v, row, a)
  }

  lemma ValIsCell(s: seq<real>, ido: nat, l1: nat, ip: nat, a: nat, b: nat, row: nat)
    requires a < ido && b < l1
    ensures Idx(a, ido, b) < Prod(ido, l1) &&
            Vals(s, Prod(ido, l1), Idx(a, ido, b))(row) == CellAt(s, ido, l1, a, b, row)
  {
    Flat(ido, l1, ip, a, b);
    hide Idx, Prod;
  }

  lemma PairedVals(cc: seq<real>, x: seq<real>, wa: seq<real>, ido: nat, ip: nat, l1: nat, a: nat, b: nat, row: nat)
    requires Cells(cc, ido, l1, ip, Paired3(x, wa, ido, ip, l1)) && a < ido && b < l1 && row < ip
    ensures Vals(cc, Prod(ido, l1), Idx(a, ido, b))(row)
              == PairedCell(Inputs(x, wa, ido, ip, l1, b, (a + 1) / 2), row, a)
  {
    ValIsCell(cc, ido, l1, ip, a, b, row);
    hide Prod, Idx, Vals, PairedCell, CellAt;
  }

  lemma PairedRowsOf(vals: nat -> real, col: seq<Complex>, a: nat)
    requires |col| % 2 == 1 && forall u: nat :: u < |col| ==> vals(u) == PairedCell(col, u, a)
    ensures vals(0) == Part(At(col, 0), a)
    ensures forall u: nat :: 0 < u <= |col| / 2 ==> vals(u) == Part(SumOf(col, u - 1), a)
    ensures forall row: nat :: |col| - |col| / 2 <= row < |col| ==>
              vals(row) == OddSide(TurnBack(DiffOf(col, |col| - row - 1)), a)
  {
    hide Part, SumOf, DiffOf, OddSide, TurnBack;
  }

  lemma MixedPlain(vals: nat -> real, col: seq<Complex>, v: Complex, a: nat)
    requires |col| % 2 == 1 && forall u: nat :: u < |col| ==> vals(u) == PairedCell(col, u, a)
    ensures PlainMix(vals, |col| / 2) == MixedCell(col, v, 0, a)
  {
    PairedRowsOf(vals, col, a);
    hide Part, SumOf, DiffOf, DftAt, PlainMix, At, Add;
    PlainMixPart(vals, col, |col| / 2, a);
    OddDftZero(col, v);
  }

  lemma MixedPair(vals: nat -> real, col: seq<Complex>, r: Complex, l: nat, a: nat)
    requires |col| % 2 == 1 && 0 < l <= |col| / 2 && forall u: nat :: u < |col| ==> vals(u) == PairedCell(col, u, a)
    ensures EvenMix(r, vals, l, |col| / 2) == MixedCell(col, Conj(r), l, a)
    ensures OddMix(r, vals, |col|, l, |col| / 2) == MixedCell(col, Conj(r), |col| - l, a)
  {
    PairedRowsOf(vals, col, a);
    hide Part, SumOf, DiffOf, EvenMix, OddMix, Conj, OddSide, TurnBack, At, PairedCell;
    EvenMixPart(r, Conj(r), vals, col, l, |col| / 2, a);
    OddMixForward(r, vals, col, |col|, l, |col| / 2, a);
  }

  /** The mixed value of one cell. */
  lemma MixedVals(cc: seq<real>, ch0: seq<real>, ch: seq<real>, x: seq<real>, wa: seq<real>, ido: nat, ip: nat, l1: nat,
                  r: Complex, a: nat, b: nat, row: nat)
    requires Cells(cc, ido, l1, ip, Paired3(x, wa, ido, ip, l1)) && ip % 2 == 1 && a < ido && b < l1 && row < ip
    requires MixedBelow(ch0, cc, Prod(ido, l1), ip, ip / 2 + 1, r)
    requires RowPair(ch0, ch, Prod(ido, l1), ip, 0, 0, PlainFn(cc, Prod(ido, l1), (ip - 1) / 2),
                     PlainFn(cc, Prod(ido, l1), (ip - 1) / 2))
    ensures CellAt(ch, ido, l1, a, b, row) == MixedCell(Inputs(x, wa, ido, ip, l1, b, (a + 1) / 2), Conj(r), row, a)
  {
    hide *;
    var n, ik, h := Prod(ido, l1), Idx(a, ido, b), ip / 2;
    var col, vals := Inputs(x, wa, ido, ip, l1, b, (a + 1) / 2), Vals(cc, n, ik);
    ValIsCell(ch, ido, l1, ip, a, b, row);
    assert (ip - 1) / 2 == h;
    MixedRowsAt(cc, ch0, ch, n, ip, r, ik, row);
    forall u: nat | u < ip
      ensures vals(u) == PairedCell(col, u, a)
    {
      PairedVals(cc, x, wa, ido, ip, l1, a, b, u);
    }
    if row == 0 {
      MixedPlain(vals, col, Conj(r), a);
    } else {
      MixedPair(vals, col, r, if row <= h then row else ip - row, a);
    }
  }

  lemma MixedRowsAt(cc: seq<real>, ch0: seq<real>, ch: seq<real>, n: nat, ip: nat, r: Complex, ik: nat, row: nat)
    requires MixedBelow(ch0, cc, n, ip, ip / 2 + 1, r) && ip % 2 == 1 && ik < n && row < ip
    requires RowPair(ch0, ch, n, ip, 0, 0, PlainFn(cc, n, (ip - 1) / 2), PlainFn(cc, n, (ip - 1) / 2))
    ensures Vals(ch, n, ik)(row) == if row == 0 then PlainMix(Vals(cc, n, ik), (ip - 1) / 2)
                                    else if row <= ip / 2 then EvenMix(r, Vals(cc, n, ik), row, ip / 2)
                                    else OddMix(r, Vals(cc, n, ik), ip, ip - row, ip / 2)
  {
    hide Prod, Vals, EvenMix, OddMix, PlainMix;
    assert Vals(ch, n, ik)(row) == if row == 0 then PlainFn(cc, n, (ip - 1) / 2)(ik) else Vals(ch0, n, ik)(row);
    if row > ip / 2 {
      assert Vals(ch0, n, ik)(ip - (ip - row)) == OddMix(r, Vals(cc, n, ik), ip, ip - row, ip / 2);
    }
  }

  /** The middle loops of radfg: from the rows in `cc` to mixed rows in `ch`. */
  method MixInputs(ido: nat, l1: nat, ip: nat, cc: array<real>, ch: array<real>, wa: seq<real>, roots: seq<Complex>,
                   ghost x: seq<real>, ghost r: Complex)
    requires cc != ch && cc.Length == ch.Length == Times3(l1, ip, ido)
    requires Cells(cc[..], ido, l1, ip, Paired3(x, wa, ido, ip, l1))
    requires Prime(ip) && 5 <= ip && ip % 2 == 1 && PowerTable(roots, r, ip)
    modifies ch
    ensures Cells(ch[..], ido, l1, ip, Mixed3(x, wa, ido, ip, l1, Conj(r)))
  {
    var n := Prod(ido, l1);
    Sizes(l1, ip, ido);
    hide Prime, PowerTable, Prod, Times3, RowPair, MixedBelow, PlainFn, Paired3, Mixed3, CellAt, Conj;
    MixRealRows(n, ip, roots, cc, ch, r);
    ghost var ch0 := ch[..];
    SumRows(n, ip, cc, ch);
    forall a: nat, b: nat, row: nat | a < ido && b < l1 && row < ip
      ensures CellAt(ch[..], ido, l1, a, b, row) == Mixed3(x, wa, ido, ip, l1, Conj(r))(a, b, row)
    {
      MixedVals(cc[..], ch0, ch[..], x, wa, ido, ip, l1, r, a, b, row);
      Mixed3Is(x, wa, ido, ip, l1, Conj(r), a, b, row);
    }
  }

  lemma Mixed3Is(x: seq<real>, wa: seq<real>, ido: nat, ip: nat, l1: nat, v: Complex, a: nat, b: nat, row: nat)
    ensures Mixed3(x, wa, ido, ip, l1, v)(a, b, row) == MixedCell(Inputs(x, wa, ido, ip, l1, b, (a + 1) / 2), v, row, a)
  {
    hide MixedCell, Inputs;
  }

  // ---------- the outputs ----------

  /** The frequencies in `S` are stored rightly. */
  ghost predicate RightOn(y: seq<real>, x: seq<real>, v: Complex, ido: nat, ip: nat, l1: nat,
                          S: (nat, nat, nat) -> bool)
  {
    forall a: nat, b: nat, c: nat :: a < l1 && b < ido && Canon(ido, ip, b, c) && S(a, b, c) ==>
        ForwardRight(y, x, v, ido, ip, l1, a, b, c)
  }

  /** One more frequency. */
  method PutRight(cc: array<real>, ido: nat, ip: nat, l1: nat, k: nat, q: nat, p: nat, z: Complex, ghost x: seq<real>,
                  ghost v: Complex, ghost S: (nat, nat, nat) -> bool, ghost S': (nat, nat, nat) -> bool)
    requires cc.Length == Times3(l1, ip, ido) && k < l1 && q < ido && Canon(ido, ip, q, p)
    requires RightOn(cc[..], x, v, ido, ip, l1, S) && z == ForwardBin(x, v, ido, ip, l1, k, q, p)
    requires forall a: nat, b: nat, c: nat :: a < l1 && b < ido && Canon(ido, ip, b, c) && S'(a, b, c) ==>
               S(a, b, c) || (a == k && b == q && c == p)
    modifies cc
    ensures RightOn(cc[..], x, v, ido, ip, l1, S')
  {
    Reassociate3(l1, ip, ido);
    BlockInside(Prod(ido, ip), k, l1);
    ProdSwap(l1, Prod(ido, ip));
    CanonInside(ido, ip, q, p);
    ghost var was := cc[..];
    hide *;
    StoreBin(cc, Prod(ido, ip), k, Idx(q, ido, p), z);
    StoredRight(was, cc[..], x, v, ido, ip, l1, k, q, p, z);
    RightOnStep(was, cc[..], x, v, ido, ip, l1, k, q, p, S, S');
  }

  lemma RightOnStep(was: seq<real>, now: seq<real>, x: seq<real>, v: Complex, ido: nat, ip: nat, l1: nat, k: nat,
                    q: nat, p: nat, S: (nat, nat, nat) -> bool, S': (nat, nat, nat) -> bool)
    requires RightOn(was, x, v, ido, ip, l1, S) && ForwardRight(now, x, v, ido, ip, l1, k, q, p)
    requires forall a: nat, b: nat, c: nat :: b < ido && Canon(ido, ip, b, c) && (a != k || b != q || c != p) ==>
               BlockBin(now, Prod(ido, ip), a, Idx(b, ido, c)) == BlockBin(was, Prod(ido, ip), a, Idx(b, ido, c))
    requires forall a: nat, b: nat, c: nat :: a < l1 && b < ido && Canon(ido, ip, b, c) && S'(a, b, c) ==>
               S(a, b, c) || (a == k && b == q && c == p)
    ensures RightOn(now, x, v, ido, ip, l1, S')
  {
    hide ForwardRight, Canon, BlockBin, Prod, Idx;
    forall a: nat, b: nat, c: nat | a < l1 && b < ido && Canon(ido, ip, b, c) && S'(a, b, c)
      ensures ForwardRight(now, x, v, ido, ip, l1, a, b, c)
    {
      if a != k || b != q || c != p { RightKept(was, now, x, v, ido, ip, l1, a, b, c); }
    }
  }

  lemma RightOnFewer(y: seq<real>, x: seq<real>, v: Complex, ido: nat, ip: nat, l1: nat, S: (nat, nat, nat) -> bool,
                     S': (nat, nat, nat) -> bool)
    requires RightOn(y, x, v, ido, ip, l1, S)
    requires forall a: nat, b: nat, c: nat :: a < l1 && b < ido && Canon(ido, ip, b, c) && S'(a, b, c) ==> S(a, b, c)
    ensures RightOn(y, x, v, ido, ip, l1, S')
  {
    hide ForwardRight;
  }

  /** The columns are transformed over `v`, the root of the pass. */
  ghost predicate PassRoot(w: Complex, v: Complex, ido: nat, ip: nat, l1: nat) {
    v == Pow(Conj(w), Prod(l1, ido)) && FullCircle(v, ip)
  }

  /** What the mixed cells say about the outputs of a column. */
  lemma MixedOutputs(ch: seq<real>, x: seq<real>, wa: seq<real>, w: Complex, v: Complex, ido: nat, ip: nat, l1: nat,
                     k: nat, q: nat, j: nat)
    requires Cells(ch, ido, l1, ip, Mixed3(x, wa, ido, ip, l1, v)) && RealFactors(wa, [], w, ido, ip, l1) &&
             PassRoot(w, v, ido, ip, l1)
    requires ip % 2 == 1 && k < l1 && 0 < q && 2 * q < ido && j <= ip / 2
    ensures j == 0 ==>
              ForwardBin(x, Conj(w), ido, ip, l1, k, q, 0)
                == Complex(CellAt(ch, ido, l1, 2 * q - 1, k, 0), CellAt(ch, ido, l1, 2 * q, k, 0))
    ensures j > 0 ==>
              var e, o := Complex(CellAt(ch, ido, l1, 2 * q - 1, k, j), CellAt(ch, ido, l1, 2 * q, k, j)),
                          Complex(CellAt(ch, ido, l1, 2 * q - 1, k, ip - j), CellAt(ch, ido, l1, 2 * q, k, ip - j));
              && ForwardBin(x, Conj(w), ido, ip, l1, k, q, j) == Add(e, o)
              && ForwardBin(x, Conj(w), ido, ip, l1, k, q, ip - j) == Sub(e, o)
  {
    hide *;
    var col := Inputs(x, wa, ido, ip, l1, k, q);
    MixedAtPair(ch, x, wa, v, ido, ip, l1, k, q, j);
    OutputIs(x, wa, w, v, ido, ip, l1, k, q, j);
    if j > 0 {
      MixedAtPair(ch, x, wa, v, ido, ip, l1, k, q, ip - j);
      OutputIs(x, wa, w, v, ido, ip, l1, k, q, ip - j);
      PassRootOne(w, v, ido, ip, l1);
      OddDft(col, v, j);
      OddDftMirror(col, v, j);
    }
  }

  lemma PassRootOne(w: Complex, v: Complex, ido: nat, ip: nat, l1: nat)
    requires PassRoot(w, v, ido, ip, l1)
    ensures Mul(v, Conj(v)) == ONE && Pow(v, ip) == ONE
  {}

  /** An output of the pass is a transform of the turned inputs. */
  lemma OutputIs(x: seq<real>, wa: seq<real>, w: Complex, v: Complex, ido: nat, ip: nat, l1: nat, k: nat, q: nat,
                 p: nat)
    requires RealFactors(wa, [], w, ido, ip, l1) && PassRoot(w, v, ido, ip, l1) && q < ido && 2 * q <= ido
    ensures ForwardBin(x, Conj(w), ido, ip, l1, k, q, p) == DftAt(Inputs(x, wa, ido, ip, l1, k, q), v, p)
  {
    TurnedIsSpread(x, wa, [], w, ido, ip, l1, k, q);
    hide DftAt, Conj, Mul, Pow, RealFactors, Spread, Prod, TurnedColumn;
  }

  lemma PartPair(z: Complex, q: nat)
    requires q > 0
    ensures Part(z, 2 * q - 1) == OddSide(z, 2 * q - 1) == z.re && Part(z, 2 * q) == OddSide(z, 2 * q) == z.im
  {
    assert (2 * q - 1) % 2 == 1 && (2 * q) % 2 == 0;
  }

  lemma MixedAtPair(ch: seq<real>, x: seq<real>, wa: seq<real>, v: Complex, ido: nat, ip: nat, l1: nat, k: nat, q: nat,
                    row: nat)
    requires Cells(ch, ido, l1, ip, Mixed3(x, wa, ido, ip, l1, v)) && ip % 2 == 1 && k < l1 && 0 < q && 2 * q < ido &&
             row < ip
    ensures var col, z := Inputs(x, wa, ido, ip, l1, k, q), Complex(CellAt(ch, ido, l1, 2 * q - 1, k, row),
            CellAt(ch, ido, l1, 2 * q, k, row));
            z == if row == 0 then DftAt(col, v, 0) else if row <= ip / 2 then EvenPart(col, v, row)
              else OddPart(col, v, ip - row)
  {
    hide *;
    CellIs(ch, ido, l1, ip, Mixed3(x, wa, ido, ip, l1, v), 2 * q - 1, k, row);
    CellIs(ch, ido, l1, ip, Mixed3(x, wa, ido, ip, l1, v), 2 * q, k, row);
    Mixed3Is(x, wa, ido, ip, l1, v, 2 * q - 1, k, row);
    Mixed3Is(x, wa, ido, ip, l1, v, 2 * q, k, row);
    assert (2 * q - 1 + 1) / 2 == q && (2 * q + 1) / 2 == q;
    MixedCellPair(Inputs(x, wa, ido, ip, l1, k, q), v, row, q);
  }

  lemma MixedCellPair(col: seq<Complex>, v: Complex, row: nat, q: nat)
    requires q > 0 && row < |col|
    ensures Complex(MixedCell(col, v, row, 2 * q - 1), MixedCell(col, v, row, 2 * q))
         == if row == 0 then DftAt(col, v, 0) else if row <= |col| / 2 then EvenPart(col, v, row)
           else OddPart(col, v, |col| - row)
  {
    hide DftAt, EvenPart, OddPart, Part, OddSide;
    PartPair(DftAt(col, v, 0), q);
    PartPair(EvenPart(col, v, row), q);
    PartPair(OddPart(col, v, |col| - row), q);
  }

  /** At the zero frequency. */
  lemma MixedZeros(ch: seq<real>, x: seq<real>, wa: seq<real>, w: Complex, v: Complex, ido: nat, ip: nat, l1: nat,
                   k: nat, j: nat)
    requires Cells(ch, ido, l1, ip, Mixed3(x, wa, ido, ip, l1, v)) && RealFactors(wa, [], w, ido, ip, l1) &&
             PassRoot(w, v, ido, ip, l1)
    requires ip % 2 == 1 && k < l1 && ido > 0 && j <= ip / 2
    ensures ForwardBin(x, Conj(w), ido, ip, l1, k, 0, j)
              == Complex(CellAt(ch, ido, l1, 0, k, j), if j == 0 then 0.0 else CellAt(ch, ido, l1, 0, k, ip - j))
  {
    hide *;
    var col := Inputs(x, wa, ido, ip, l1, k, 0);
    OutputIs(x, wa, w, v, ido, ip, l1, k, 0, j);
    forall u: nat | u < ip
      ensures col[u].im == 0.0
    {
      InputIs(x, wa, ido, ip, l1, k, 0, u);
    }
    CellIs(ch, ido, l1, ip, Mixed3(x, wa, ido, ip, l1, v), 0, k, j);
    Mixed3Is(x, wa, ido, ip, l1, v, 0, k, j);
    RealColumn(col, v, j);
    if j > 0 {
      CellIs(ch, ido, l1, ip, Mixed3(x, wa, ido, ip, l1, v), 0, k, ip - j);
      Mixed3Is(x, wa, ido, ip, l1, v, 0, k, ip - j);
      PassRootOne(w, v, ido, ip, l1);
      OddDft(col, v, j);
    }
    MixedCellZero(col, v, j);
  }

  lemma MixedCellZero(col: seq<Complex>, v: Complex, j: nat)
    requires |col| % 2 == 1 && j <= |col| / 2
    ensures j == 0 ==> MixedCell(col, v, 0, 0) == DftAt(col, v, 0).re
    ensures j > 0 ==>
              && MixedCell(col, v, j, 0) == EvenPart(col, v, j).re
              && MixedCell(col, v, |col| - j, 0) == OddPart(col, v, j).im
    ensures EvenPart(col, v, j).im == 0.0 && OddPart(col, v, j).re == 0.0 ==>
              Add(EvenPart(col, v, j), OddPart(col, v, j)) == Complex(EvenPart(col, v, j).re, OddPart(col, v, j).im)
  {
    hide DftAt, EvenPart, OddPart;
  }

  /** The transform of real values at zero, and the two parts elsewhere. */
  lemma RealColumn(col: seq<Complex>, v: Complex, j: nat)
    requires |col| % 2 == 1 && forall u: nat :: u < |col| ==> col[u].im == 0.0
    ensures DftAt(col, v, 0).im == 0.0 && EvenPart(col, v, j).im == 0.0 && OddPart(col, v, j).re == 0.0
  {
    var h := |col| / 2;
    assert AllReal(col);
    RealParts.RealParts(col, v, j, h);
    RealPlain(col, h);
    OddDftZero(col, v);
    hide Add, DftAt, Sum;
  }

  lemma {:induction false} RealPlain(col: seq<Complex>, t: nat)
    requires AllReal(col)
    ensures Add(At(col, 0), Sum(t, SumTerm(col))).im == 0.0
  {
    RealSums(col, 0);
    if t > 0 {
      RealPlain(col, t - 1);
      RealSums(col, t - 1);
    }
  }

  /** Which outputs the last loops of radfg have stored: row 0, then the zero frequencies, then the rest. */
  function Stored3(ip: nat, phase: nat, j: nat, k: nat, q: nat): (nat, nat, nat) -> bool {
    (a: nat, b: nat, c: nat) =>
      if c == 0 then phase > 0 || a < k || (a == k && b < q)
      else if b == 0 then phase > 1 || (phase == 1 && (c < j || (c == j && a < k)))
      else phase == 2 && (Mirror(ip, c) < j || (Mirror(ip, c) == j && (a < k || (a == k && b < q))))
  }

  lemma MirrorBound(ip: nat)
    requires ip % 2 == 1
    ensures forall c: nat :: 0 < c < ip ==> 0 < Mirror(ip, c) <= ip / 2
  {}

  lemma ZerosStored(ido: nat, ip: nat)
    requires ip % 2 == 1
    ensures forall a: nat, b: nat, c: nat :: b < ido && Canon(ido, ip, b, c) && Stored3(ip, 2, 1, 0, 1)(a, b, c) ==>
              Stored3(ip, 1, ip / 2 + 1, 0, 0)(a, b, c)
  {
    MirrorBound(ip);
    forall a: nat, b: nat, c: nat | b < ido && Canon(ido, ip, b, c) && Stored3(ip, 2, 1, 0, 1)(a, b, c)
      ensures Stored3(ip, 1, ip / 2 + 1, 0, 0)(a, b, c)
    {
      hide Mirror;
      assert c < ip;
    }
  }

  lemma PairStored(ido: nat, ip: nat, j: nat, k: nat, q: nat)
    requires ip % 2 == 1 && 0 < j <= ip / 2 && q > 0
    ensures forall a: nat, b: nat, c: nat :: c < ip && Stored3(ip, 2, j, k, q + 1)(a, b, c) ==>
              Stored3(ip, 2, j, k, q)(a, b, c) || (a == k && b == q && (c == j || c == ip - j))
  {
    forall a: nat, b: nat, c: nat | c < ip && Stored3(ip, 2, j, k, q + 1)(a, b, c)
      ensures Stored3(ip, 2, j, k, q)(a, b, c) || (a == k && b == q && (c == j || c == ip - j))
    {
      assert Mirror(ip, c) == j ==> c == j || c == ip - j;
    }
  }

  lemma RowsStored(ido: nat, l1: nat, ip: nat, j: nat, k: nat, q: nat)
    requires 2 * q >= ido && ido % 2 == 1 && ip % 2 == 1
    ensures forall a: nat, b: nat, c: nat ::
              c < ip && b < ido && Canon(ido, ip, b, c) && Stored3(ip, 2, j, k + 1, 1)(a, b, c) ==>
              Stored3(ip, 2, j, k, q)(a, b, c)
    ensures forall a: nat, b: nat, c: nat :: c < ip && a < l1 && Stored3(ip, 2, j + 1, 0, 1)(a, b, c) ==>
              Stored3(ip, 2, j, l1, 1)(a, b, c)
  {
    hide Mirror;
  }

  lemma EverythingStored(ip: nat, j: nat)
    requires ip % 2 == 1 && j == ip / 2 + 1
    ensures forall a: nat, b: nat, c: nat :: c < ip ==> Stored3(ip, 2, j, 0, 1)(a, b, c)
  {
    MirrorBound(ip);
    forall a: nat, b: nat, c: nat | c < ip
      ensures Stored3(ip, 2, j, 0, 1)(a, b, c)
    {
      hide Mirror;
      assert c > 0 ==> Mirror(ip, c) <= ip / 2;
    }
  }

  /** The loop for row 0. */
  method StoreRowZero(ido: nat, l1: nat, ip: nat, cc: array<real>, ch: array<real>, wa: seq<real>, ghost x: seq<real>,
                      ghost w: Complex, ghost v: Complex)
    requires cc != ch && cc.Length == Times3(l1, ip, ido) && ip % 2 == 1 && ip > 1 && ido % 2 == 1
    requires Cells(ch[..], ido, l1, ip, Mixed3(x, wa, ido, ip, l1, v)) && RealFactors(wa, [], w, ido, ip, l1) &&
             PassRoot(w, v, ido, ip, l1)
    modifies cc
    ensures RightOn(cc[..], x, Conj(w), ido, ip, l1, Stored3(ip, 1, 1, 0, 0))
  {
    ghost var y, V := ch[..], Conj(w);
    assert RightOn(cc[..], x, V, ido, ip, l1, Stored3(ip, 0, 0, 0, 0));
    hide Times3, Cells, Mixed3, RealFactors, PassRoot, RightOn, Conj, CellAt, ForwardBin;
    for k := 0 to l1
      invariant ch[..] == y && RightOn(cc[..], x, V, ido, ip, l1, Stored3(ip, 0, 0, k, 0))
    {
      for q := 0 to (ido + 1) / 2
        invariant ch[..] == y && RightOn(cc[..], x, V, ido, ip, l1, Stored3(ip, 0, 0, k, q))
      {
        var z := Complex(CellAt(ch[..], ido, l1, if q == 0 then 0 else 2 * q - 1, k, 0), if q == 0 then 0.0
                         else CellAt(ch[..], ido, l1, 2 * q, k, 0));
        if q == 0 { MixedZeros(y, x, wa, w, v, ido, ip, l1, k, 0); }
        else { MixedOutputs(y, x, wa, w, v, ido, ip, l1, k, q, 0); }
        PutRight(cc, ido, ip, l1, k, q, 0, z, x, V, Stored3(ip, 0, 0, k, q), Stored3(ip, 0, 0, k, q + 1));
      }
      RightOnFewer(cc[..], x, V, ido, ip, l1, Stored3(ip, 0, 0, k, (ido + 1) / 2), Stored3(ip, 0, 0, k + 1, 0));
    }
    RightOnFewer(cc[..], x, V, ido, ip, l1, Stored3(ip, 0, 0, l1, 0), Stored3(ip, 1, 1, 0, 0));
  }

  /** The loop for the zero frequencies of the other rows. */
  method StoreZeros(ido: nat, l1: nat, ip: nat, cc: array<real>, ch: array<real>, wa: seq<real>, ghost x: seq<real>,
                    ghost w: Complex, ghost v: Complex)
    requires cc != ch && cc.Length == Times3(l1, ip, ido) && ip % 2 == 1 && ip > 1 && ido % 2 == 1
    requires Cells(ch[..], ido, l1, ip, Mixed3(x, wa, ido, ip, l1, v)) && RealFactors(wa, [], w, ido, ip, l1) &&
             PassRoot(w, v, ido, ip, l1)
    requires RightOn(cc[..], x, Conj(w), ido, ip, l1, Stored3(ip, 1, 1, 0, 0))
    modifies cc
    ensures RightOn(cc[..], x, Conj(w), ido, ip, l1, Stored3(ip, 2, 1, 0, 1))
  {
    ghost var y, V := ch[..], Conj(w);
    hide Times3, Cells, Mixed3, RealFactors, PassRoot, RightOn, Conj, CellAt, ForwardBin;
    for j := 1 to ip / 2 + 1
      invariant ch[..] == y && RightOn(cc[..], x, V, ido, ip, l1, Stored3(ip, 1, j, 0, 0))
    {
      for k := 0 to l1
        invariant ch[..] == y && RightOn(cc[..], x, V, ido, ip, l1, Stored3(ip, 1, j, k, 0))
      {
        MixedZeros(y, x, wa, w, v, ido, ip, l1, k, j);
        PutRight(cc, ido, ip, l1, k, 0, j, Complex(CellAt(ch[..], ido, l1, 0, k, j),
                                                   CellAt(ch[..], ido, l1, 0, k, ip - j)),
                 x, V, Stored3(ip, 1, j, k, 0), Stored3(ip, 1, j, k + 1, 0));
      }
      RightOnFewer(cc[..], x, V, ido, ip, l1, Stored3(ip, 1, j, l1, 0), Stored3(ip, 1, j + 1, 0, 0));
    }
    ZerosStored(ido, ip);
    RightOnFewer(cc[..], x, V, ido, ip, l1, Stored3(ip, 1, ip / 2 + 1, 0, 0), Stored3(ip, 2, 1, 0, 1));
  }

  lemma CanonBelow(ido: nat, ip: nat)
    ensures forall b: nat, c: nat :: Canon(ido, ip, b, c) ==> c < ip
  {}

  lemma PairCanon(ido: nat, ip: nat, q: nat, j: nat)
    requires 0 < j < ip && 0 < q && 2 * q < ido
    ensures Canon(ido, ip, q, j) && Canon(ido, ip, q, ip - j)
  {}

  /** The last loop: sums and differences of the parts, the latter to the slots that mirror them. */
  method StorePairs(ido: nat, l1: nat, ip: nat, cc: array<real>, ch: array<real>, wa: seq<real>, ghost x: seq<real>,
                    ghost w: Complex, ghost v: Complex)
    requires cc != ch && cc.Length == Times3(l1, ip, ido) && ip % 2 == 1 && ip > 1 && ido % 2 == 1
    requires Cells(ch[..], ido, l1, ip, Mixed3(x, wa, ido, ip, l1, v)) && RealFactors(wa, [], w, ido, ip, l1) &&
             PassRoot(w, v, ido, ip, l1)
    requires RightOn(cc[..], x, Conj(w), ido, ip, l1, Stored3(ip, 2, 1, 0, 1))
    modifies cc
    ensures RightOn(cc[..], x, Conj(w), ido, ip, l1, Stored3(ip, 2, ip / 2 + 1, 0, 1))
  {
    hide *;
    ghost var y, V := ch[..], Conj(w);
    CanonBelow(ido, ip);
    for j := 1 to ip / 2 + 1
      invariant ch[..] == y && RightOn(cc[..], x, V, ido, ip, l1, Stored3(ip, 2, j, 0, 1))
    {
      for k := 0 to l1
        invariant ch[..] == y && RightOn(cc[..], x, V, ido, ip, l1, Stored3(ip, 2, j, k, 1))
      {
        for q := 1 to (ido + 1) / 2
          invariant ch[..] == y && RightOn(cc[..], x, V, ido, ip, l1, Stored3(ip, 2, j, k, q))
        {
          StorePair3(ido, l1, ip, cc, ch, wa, j, k, q, x, w, v);
        }
        RowsStored(ido, l1, ip, j, k, if ido > 1 then (ido + 1) / 2 else 1);
        RightOnFewer(cc[..], x, V, ido, ip, l1, Stored3(ip, 2, j, k, if ido > 1 then (ido + 1) / 2 else 1),
                     Stored3(ip, 2, j, k + 1, 1));
      }
      RowsStored(ido, l1, ip, j, 0, ido);
      RightOnFewer(cc[..], x, V, ido, ip, l1, Stored3(ip, 2, j, l1, 1), Stored3(ip, 2, j + 1, 0, 1));
    }
  }

  /** One pair of outputs. */
  method StorePair3(ido: nat, l1: nat, ip: nat, cc: array<real>, ch: array<real>, wa: seq<real>, j: nat, k: nat, q: nat,
                    ghost x: seq<real>, ghost w: Complex, ghost v: Complex)
    requires cc != ch && cc.Length == Times3(l1, ip, ido) && ip % 2 == 1 && ip > 1 && 0 < j <= ip / 2 && k < l1 &&
             0 < q && 2 * q < ido
    requires Cells(ch[..], ido, l1, ip, Mixed3(x, wa, ido, ip, l1, v)) && RealFactors(wa, [], w, ido, ip, l1) &&
             PassRoot(w, v, ido, ip, l1)
    requires RightOn(cc[..], x, Conj(w), ido, ip, l1, Stored3(ip, 2, j, k, q))
    modifies cc
    ensures RightOn(cc[..], x, Conj(w), ido, ip, l1, Stored3(ip, 2, j, k, q + 1))
  {
    hide *;
    ghost var y, V := ch[..], Conj(w);
    MixedOutputs(y, x, wa, w, v, ido, ip, l1, k, q, j);
    CanonBelow(ido, ip);
    PairCanon(ido, ip, q, j);
    var e := Complex(CellAt(ch[..], ido, l1, 2 * q - 1, k, j), CellAt(ch[..], ido, l1, 2 * q, k, j));
    var o := Complex(CellAt(ch[..], ido, l1, 2 * q - 1, k, ip - j), CellAt(ch[..], ido, l1, 2 * q, k, ip - j));
    ghost var S := Stored3(ip, 2, j, k, q);
    ghost var T := (a: nat, b: nat, c: nat) => S(a, b, c) || (a == k && b == q && c == j);
    PutRight(cc, ido, ip, l1, k, q, j, Add(e, o), x, V, S, T);
    PairStored(ido, ip, j, k, q);
    PutRight(cc, ido, ip, l1, k, q, ip - j, Sub(e, o), x, V, T, Stored3(ip, 2, j, k, q + 1));
  }

  lemma AllStored(y: seq<real>, x: seq<real>, w: Complex, ido: nat, ip: nat, l1: nat)
    requires RightOn(y, x, Conj(w), ido, ip, l1, Stored3(ip, 2, ip / 2 + 1, 0, 1)) && ip % 2 == 1
    requires |x| == |y| == Times3(l1, ip, ido) && FullCircle(w, Times3(l1, ip, ido))
    ensures IsRealForward(x, y, Conj(w), ido, ip, l1)
  {
    CircleBack(w, Times3(l1, ip, ido));
    EverythingStored(ip, ip / 2 + 1);
    CanonBelow(ido, ip);
    hide Mul, Pow, Conj, Times3, ForwardRight, Stored3, Canon;
    forall k: nat, q: nat, p: nat | k < l1 && q < ido && Canon(ido, ip, q, p)
      ensures ForwardRight(y, x, Conj(w), ido, ip, l1, k, q, p)
    {
      assert Stored3(ip, 2, ip / 2 + 1, 0, 1)(k, q, p);
    }
    ForwardFromCanon(y, x, Conj(w), ido, ip, l1);
  }

  /** radfg. Its result is back in `cc`. */
  method RadFG(ido: nat, ip: nat, l1: nat, cc: array<real>, ch: array<real>, wa: seq<real>, roots: seq<Complex>,
               ghost w: Complex)
    requires cc != ch && cc.Length == ch.Length == Times3(l1, ip, ido) && ido % 2 == 1
    requires Prime(ip) && 5 <= ip && ip % 2 == 1
    requires UnitRoot(w, Times3(l1, ip, ido)) && TableFactors(wa, w, ido, ip, l1) &&
             PowerTable(roots, Pow(w, Prod(l1, ido)), ip)
    modifies cc, ch
    ensures IsRealForward(old(cc[..]), cc[..], Conj(w), ido, ip, l1)
  {
    ghost var x, r := cc[..], Pow(w, Prod(l1, ido));
    ghost var v := Conj(r);
    AllFactors(wa, [], w, ido, ip, l1);
    RootCircle(w, Times3(l1, ip, ido));
    PassRootIs(w, ido, ip, l1);
    hide *;
    PairInputs(ido, l1, ip, cc, wa);
    MixInputs(ido, l1, ip, cc, ch, wa, roots, x, r);
    StoreRowZero(ido, l1, ip, cc, ch, wa, x, w, v);
    StoreZeros(ido, l1, ip, cc, ch, wa, x, w, v);
    StorePairs(ido, l1, ip, cc, ch, wa, x, w, v);
    AllStored(cc[..], x, w, ido, ip, l1);
  }

  lemma PassRootIs(w: Complex, ido: nat, ip: nat, l1: nat)
    requires UnitRoot(w, Times3(l1, ip, ido))
    ensures PassRoot(w, Conj(Pow(w, Prod(l1, ido))), ido, ip, l1)
  {
    PowConj(w, Prod(l1, ido));
    ColumnRoot(w, -1, l1, ip, ido);
    hide Pow, Mul, Conj;
  }
}
