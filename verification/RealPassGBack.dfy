/** The generic real pass, backward: radix any odd prime from 5 on. */
module RealPassGBack {
  import opened Basics
  import opened Complexes
  import opened Dft
  import opened RadixPass
  import opened Butterflies
  import opened Passes
  import opened Primes
  import opened PassG
  import opened RealSpectra
  import opened RealStages
  import opened RealSymmetry
  import opened RealColumns
  import opened RealPasses
  import opened RealRows
  import opened RealParts
  import opened RealPassG

  // ---------- sums and differences of facing frequencies ----------

  function SplitCell(col: seq<Complex>, row: nat, i: nat): real {
    if row == 0 then Part(At(col, 0), i)
    else if row <= |col| / 2 then Part(SumOf(col, row - 1), i)
    else if row < |col| then OddSide(DiffOf(col, |col| - row - 1), i)
    else 0.0
  }

  function Split3(x: seq<real>, ido: nat, ip: nat): (nat, nat, nat) -> real {
    (a: nat, b: nat, row: nat) => SplitCell(Bins(x, ido, ip, b, (a + 1) / 2), row, a)
  }

  lemma Split3Is(x: seq<real>, ido: nat, ip: nat, a: nat, b: nat, row: nat)
    ensures Split3(x, ido, ip)(a, b, row) == SplitCell(Bins(x, ido, ip, b, (a + 1) / 2), row, a)
  {
    hide SplitCell, Bins;
  }

  /** Where the loops over rows, positions and cells have been: row 0 first, then the zero
      frequencies, then the pairs. */
  function Reach(ip: nat, phase: nat, j: nat, k: nat, i: nat): (nat, nat, nat) -> bool {
    (a: nat, b: nat, row: nat) =>
      if row == 0 then phase > 0 || b < k || (b == k && a < i)
      else if a == 0 then phase > 1 || (phase == 1 && (Mirror(ip, row) < j || (Mirror(ip, row) == j && b < k)))
      else phase == 2 && (Mirror(ip, row) < j || (Mirror(ip, row) == j && (b < k || (b == k && a < i))))
  }

  lemma ReachTurns(ip: nat, ido: nat, l1: nat, j: nat, k: nat, i: nat)
    requires ip % 2 == 1 && i >= ido
    ensures SameSet(ido, l1, ip, Reach(ip, 0, 0, k, i), Reach(ip, 0, 0, k + 1, 0))
    ensures SameSet(ido, l1, ip, Reach(ip, 1, j, l1, 0), Reach(ip, 1, j + 1, 0, 0))
    ensures SameSet(ido, l1, ip, Reach(ip, 2, j, k, i), Reach(ip, 2, j, k + 1, 1))
    ensures SameSet(ido, l1, ip, Reach(ip, 2, j, l1, 1), Reach(ip, 2, j + 1, 0, 1))
  {
    hide Mirror;
  }

  lemma ReachPhases(ip: nat, ido: nat, l1: nat, h: nat)
    requires ip % 2 == 1 && h == ip / 2 + 1
    ensures forall a: nat, b: nat, c: nat :: a < ido && b < l1 && c < ip ==> !Reach(ip, 0, 0, 0, 0)(a, b, c)
    ensures SameSet(ido, l1, ip, Reach(ip, 0, 0, l1, 0), Reach(ip, 1, 1, 0, 0))
    ensures SameSet(ido, l1, ip, Reach(ip, 1, h, 0, 0), Reach(ip, 2, 1, 0, 1))
    ensures forall a: nat, b: nat, c: nat :: a < ido && b < l1 && c < ip ==> Reach(ip, 2, h, 0, 1)(a, b, c)
    ensures forall a: nat, b: nat, c: nat :: a < ido && b < l1 && c < ip && Reach(ip, 1, 1, 0, 0)(a, b, c) ==> c == 0
  {
    MirrorBound(ip);
    ReachBounded(ip, h);
  }

  lemma ReachBounded(ip: nat, h: nat)
    requires ip % 2 == 1 && h == ip / 2 + 1
    ensures forall a: nat, b: nat, c: nat :: 0 < c < ip ==>
              Reach(ip, 2, h, 0, 1)(a, b, c) && !Reach(ip, 1, 1, 0, 0)(a, b, c)
    ensures forall a: nat, b: nat, c: nat :: 0 < c < ip && a > 0 ==> !Reach(ip, 2, 1, 0, 1)(a, b, c)
    ensures forall b: nat, c: nat :: 0 < c < ip ==> Reach(ip, 1, h, 0, 0)(0, b, c)
  {
    MirrorBound(ip);
    forall a: nat, b: nat, c: nat | 0 < c < ip
      ensures Reach(ip, 2, h, 0, 1)(a, b, c) && !Reach(ip, 1, 1, 0, 0)(a, b, c) &&
              (a > 0 ==> !Reach(ip, 2, 1, 0, 1)(a, b, c))
      ensures Reach(ip, 1, h, 0, 0)(0, b, c)
    {
      assert 0 < Mirror(ip, c) < h;
      hide Mirror;
    }
  }

  /** Writing both rows of a pair is reaching further. */
  lemma ReachPair(ip: nat, ido: nat, l1: nat, j: nat, k: nat, i: nat)
    requires ip % 2 == 1 && 0 < j <= ip / 2 && i > 0
    ensures SameSet(ido, l1, ip, With(With(Reach(ip, 2, j, k, i), i, k, j, true), i, k, ip - j, true),
                    Reach(ip, 2, j, k, i + 2))
  {
    MirrorIs(ip, j);
    MirrorBound(ip);
    hide Mirror;
  }

  lemma ReachZero(ip: nat, ido: nat, l1: nat, j: nat, k: nat)
    requires ip % 2 == 1 && 0 < j <= ip / 2
    ensures SameSet(ido, l1, ip, With(With(Reach(ip, 1, j, k, 0), 0, k, j, false), 0, k, ip - j, false),
                    Reach(ip, 1, j, k + 1, 0))
  {
    MirrorIs(ip, j);
    MirrorBound(ip);
    hide Mirror;
  }

  lemma MirrorIs(ip: nat, j: nat)
    requires ip % 2 == 1 && 0 < j <= ip / 2
    ensures forall c: nat :: c < ip && c > 0 ==> (Mirror(ip, c) == j <==> c == j || c == ip - j)
  {}

  lemma ReachCell(ip: nat, ido: nat, l1: nat, k: nat, i: nat)
    ensures SameSet(ido, l1, ip, With(Reach(ip, 0, 0, k, i), i, k, 0, false), Reach(ip, 0, 0, k, i + 1))
  {
    hide Mirror;
  }

  lemma SplitPair(x: seq<real>, ido: nat, ip: nat, k: nat, q: nat, j: nat)
    requires ip % 2 == 1 && 0 < j <= ip / 2 && 0 < q < ido
    ensures var e, m := BlockBin(x, Prod(ido, ip), k, Idx(q, ido, j)),
            BlockBin(x, Prod(ido, ip), k, Idx(q, ido, ip - j));
            && Add(e, m) == Complex(Split3(x, ido, ip)(2 * q - 1, k, j), Split3(x, ido, ip)(2 * q - 1 + 1, k, j))
            && Sub(e, m) == Complex(Split3(x, ido, ip)(2 * q - 1, k, ip - j),
                                    Split3(x, ido, ip)(2 * q - 1 + 1, k, ip - j))
  {
    hide *;
    var col := Bins(x, ido, ip, k, q);
    Split3Is(x, ido, ip, 2 * q - 1, k, j);
    Split3Is(x, ido, ip, 2 * q, k, j);
    Split3Is(x, ido, ip, 2 * q - 1, k, ip - j);
    Split3Is(x, ido, ip, 2 * q, k, ip - j);
    assert (2 * q - 1 + 1) / 2 == q && (2 * q + 1) / 2 == q;
    BinsAt(x, ido, ip, k, q, j);
    BinsAt(x, ido, ip, k, q, ip - j);
    SplitCells(col, j, q);
  }

  lemma BinsAt(x: seq<real>, ido: nat, ip: nat, k: nat, q: nat, p: nat)
    requires p < ip
    ensures Bins(x, ido, ip, k, q)[p] == BlockBin(x, Prod(ido, ip), k, Idx(q, ido, p))
  {}

  lemma SplitCells(col: seq<Complex>, j: nat, q: nat)
    requires 0 < j <= |col| / 2 && |col| % 2 == 1 && q > 0
    ensures Add(col[j], col[|col| - j]) == Complex(SplitCell(col, j, 2 * q - 1), SplitCell(col, j, 2 * q))
    ensures Sub(col[j], col[|col| - j]) == Complex(SplitCell(col, |col| - j, 2 * q - 1),
                                                   SplitCell(col, |col| - j, 2 * q))
  {
    PartPair(SumOf(col, j - 1), q);
    PartPair(DiffOf(col, j - 1), q);
    assert SumOf(col, j - 1) == Add(col[j], col[|col| - j]) && DiffOf(col, j - 1) == Sub(col[j], col[|col| - j]);
    hide Add, Sub, Part, OddSide, SumOf, DiffOf;
  }

  /** At the zero frequency the facing values are conjugate. */
  lemma SplitZero(x: seq<real>, ido: nat, ip: nat, k: nat, j: nat)
    requires ip % 2 == 1 && 0 < j <= ip / 2 && ido > 0
    ensures var e := BlockBin(x, Prod(ido, ip), k, Idx(0, ido, j));
            Split3(x, ido, ip)(0, k, j) == 2.0 * e.re && Split3(x, ido, ip)(0, k, ip - j) == 2.0 * e.im
  {
    hide *;
    var col := Bins(x, ido, ip, k, 0);
    Split3Is(x, ido, ip, 0, k, j);
    Split3Is(x, ido, ip, 0, k, ip - j);
    BinsAt(x, ido, ip, k, 0, j);
    BinsAt(x, ido, ip, k, 0, ip - j);
    FacingPair(ido, ip, 0, j);
    InRange2(ido, ip, 0, j, 0, ip - j);
    FacingSum(ido, ip, 0, j, 0, ip - j);
    BlockMirror(x, Prod(ido, ip), k, Idx(0, ido, ip - j), Idx(0, ido, j));
    SplitCellsZero(col, j);
  }

  lemma FacingSum(ido: nat, ip: nat, q: nat, p: nat, q': nat, p': nat)
    requires Facing(ido, ip, q, p, q', p') && p < ip && p' < ip && 0 < Idx(q, ido, p)
    ensures Idx(q, ido, p) + Idx(q', ido, p') == Prod(ido, ip) && Idx(q', ido, p') < Prod(ido, ip)
  {}

  lemma SplitCellsZero(col: seq<Complex>, j: nat)
    requires 0 < j <= |col| / 2 && |col| % 2 == 1 && col[|col| - j] == Conj(col[j])
    ensures SplitCell(col, j, 0) == 2.0 * col[j].re && SplitCell(col, |col| - j, 0) == 2.0 * col[j].im
  {
    assert SumOf(col, j - 1) == Add(col[j], col[|col| - j]) && DiffOf(col, j - 1) == Sub(col[j], col[|col| - j]);
    hide SumOf, DiffOf;
  }

  /** The loop for row 0. */
  method SplitRowZero(ido: nat, l1: nat, ip: nat, cc: array<real>, ch: array<real>, ghost g: (nat, nat, nat) -> real)
    requires cc != ch && ip % 2 == 1 && ido % 2 == 1
    requires Cells(ch[..], ido, l1, ip, Under(Reach(ip, 0, 0, 0, 0), Split3(cc[..], ido, ip), g))
    modifies ch
    ensures Cells(ch[..], ido, l1, ip, Under(Reach(ip, 0, 0, l1, 0), Split3(cc[..], ido, ip), g))
  {
    ghost var x := cc[..];
    ghost var f := Split3(x, ido, ip);
    hide Cells, Under, Split3, SplitCell, Bins, Part, BlockBin, Prod;
    for k := 0 to l1
      invariant cc[..] == x && Cells(ch[..], ido, l1, ip, Under(Reach(ip, 0, 0, k, 0), f, g))
    {
      for i := 0 to ido
        invariant cc[..] == x && Cells(ch[..], ido, l1, ip, Under(Reach(ip, 0, 0, k, i), f, g))
      {
        var v := Part(BlockBin(cc[..], Prod(ido, ip), k, (i + 1) / 2), i);
        SplitFirst(x, ido, ip, i, k);
        PutCell(ch, ido, l1, ip, i, k, 0, v, Reach(ip, 0, 0, k, i), f, g);
        ReachCell(ip, ido, l1, k, i);
        SameDone(ch[..], ido, l1, ip, With(Reach(ip, 0, 0, k, i), i, k, 0, false), Reach(ip, 0, 0, k, i + 1), f, g);
      }
      ReachTurns(ip, ido, l1, 0, k, ido);
      SameDone(ch[..], ido, l1, ip, Reach(ip, 0, 0, k, ido), Reach(ip, 0, 0, k + 1, 0), f, g);
    }
  }

  lemma SplitFirst(x: seq<real>, ido: nat, ip: nat, i: nat, k: nat)
    requires ip > 0
    ensures Part(BlockBin(x, Prod(ido, ip), k, (i + 1) / 2), i) == Split3(x, ido, ip)(i, k, 0)
  {
    assert Idx((i + 1) / 2, ido, 0) == (i + 1) / 2;
    hide BlockBin, Part, Prod, Idx;
  }

  /** The loop for the zero frequencies. */
  method SplitZeros(ido: nat, l1: nat, ip: nat, cc: array<real>, ch: array<real>, ghost g: (nat, nat, nat) -> real)
    requires cc != ch && ip % 2 == 1 && ido % 2 == 1
    requires Cells(ch[..], ido, l1, ip, Under(Reach(ip, 1, 1, 0, 0), Split3(cc[..], ido, ip), g))
    modifies ch
    ensures Cells(ch[..], ido, l1, ip, Under(Reach(ip, 1, ip / 2 + 1, 0, 0), Split3(cc[..], ido, ip), g))
  {
    ghost var x := cc[..];
    ghost var f := Split3(x, ido, ip);
    hide *;
    for j := 1 to ip / 2 + 1
      invariant cc[..] == x && Cells(ch[..], ido, l1, ip, Under(Reach(ip, 1, j, 0, 0), f, g))
    {
      for k := 0 to l1
        invariant cc[..] == x && Cells(ch[..], ido, l1, ip, Under(Reach(ip, 1, j, k, 0), f, g))
      {
        SplitAtZero(ido, l1, ip, cc, ch, j, k, g);
      }
      ReachTurns(ip, ido, l1, j, 0, ido);
      SameDone(ch[..], ido, l1, ip, Reach(ip, 1, j, l1, 0), Reach(ip, 1, j + 1, 0, 0), f, g);
    }
  }

  method SplitAtZero(ido: nat, l1: nat, ip: nat, cc: array<real>, ch: array<real>, j: nat, k: nat,
                     ghost g: (nat, nat, nat) -> real)
    requires cc != ch && ip % 2 == 1 && 0 < j <= ip / 2 && k < l1 && ido > 0
    requires Cells(ch[..], ido, l1, ip, Under(Reach(ip, 1, j, k, 0), Split3(cc[..], ido, ip), g))
    modifies ch
    ensures Cells(ch[..], ido, l1, ip, Under(Reach(ip, 1, j, k + 1, 0), Split3(cc[..], ido, ip), g))
  {
    hide *;
    ghost var f, S := Split3(cc[..], ido, ip), Reach(ip, 1, j, k, 0);
    var e := BlockBin(cc[..], Prod(ido, ip), k, Idx(0, ido, j));
    SplitZero(cc[..], ido, ip, k, j);
    PutCell(ch, ido, l1, ip, 0, k, j, 2.0 * e.re, S, f, g);
    PutCell(ch, ido, l1, ip, 0, k, ip - j, 2.0 * e.im, With(S, 0, k, j, false), f, g);
    ReachZero(ip, ido, l1, j, k);
    SameDone(ch[..], ido, l1, ip, With(With(S, 0, k, j, false), 0, k, ip - j, false), Reach(ip, 1, j, k + 1, 0), f, g);
  }

  /** The loop for the pairs. */
  method SplitPairs(ido: nat, l1: nat, ip: nat, cc: array<real>, ch: array<real>, ghost g: (nat, nat, nat) -> real)
    requires cc != ch && ip % 2 == 1 && ido % 2 == 1
    requires Cells(ch[..], ido, l1, ip, Under(Reach(ip, 2, 1, 0, 1), Split3(cc[..], ido, ip), g))
    modifies ch
    ensures Cells(ch[..], ido, l1, ip, Under(Reach(ip, 2, ip / 2 + 1, 0, 1), Split3(cc[..], ido, ip), g))
  {
    ghost var x := cc[..];
    ghost var f := Split3(x, ido, ip);
    hide *;
    for j := 1 to ip / 2 + 1
      invariant cc[..] == x && Cells(ch[..], ido, l1, ip, Under(Reach(ip, 2, j, 0, 1), f, g))
    {
      for k := 0 to l1
        invariant cc[..] == x && Cells(ch[..], ido, l1, ip, Under(Reach(ip, 2, j, k, 1), f, g))
      {
        var i := 1;
        while i + 1 < ido
          invariant i % 2 == 1 && i <= ido
          invariant cc[..] == x && Cells(ch[..], ido, l1, ip, Under(Reach(ip, 2, j, k, i), f, g))
        {
          SplitAtPair(ido, l1, ip, cc, ch, j, k, i, g);
          i := i + 2;
        }
        ReachTurns(ip, ido, l1, j, k, i);
        SameDone(ch[..], ido, l1, ip, Reach(ip, 2, j, k, i), Reach(ip, 2, j, k + 1, 1), f, g);
      }
      ReachTurns(ip, ido, l1, j, 0, ido);
      SameDone(ch[..], ido, l1, ip, Reach(ip, 2, j, l1, 1), Reach(ip, 2, j + 1, 0, 1), f, g);
    }
  }

  method SplitAtPair(ido: nat, l1: nat, ip: nat, cc: array<real>, ch: array<real>, j: nat, k: nat, i: nat,
                     ghost g: (nat, nat, nat) -> real)
    requires cc != ch && ip % 2 == 1 && 0 < j <= ip / 2 && k < l1 && i % 2 == 1 && i + 1 < ido
    requires Cells(ch[..], ido, l1, ip, Under(Reach(ip, 2, j, k, i), Split3(cc[..], ido, ip), g))
    modifies ch
    ensures Cells(ch[..], ido, l1, ip, Under(Reach(ip, 2, j, k, i + 2), Split3(cc[..], ido, ip), g))
  {
    hide *;
    ghost var f := Split3(cc[..], ido, ip);
    var q := (i + 1) / 2;
    var e, m := BlockBin(cc[..], Prod(ido, ip), k, Idx(q, ido, j)),
        BlockBin(cc[..], Prod(ido, ip), k, Idx(q, ido, ip - j));
    SplitPair(cc[..], ido, ip, k, q, j);
    assert 2 * q - 1 == i;
    ghost var S := Reach(ip, 2, j, k, i);
    PutPair(ch, ido, l1, ip, i, k, j, Add(e, m), S, f, g);
    PutPair(ch, ido, l1, ip, i, k, ip - j, Sub(e, m), With(S, i, k, j, true), f, g);
    ReachPair(ip, ido, l1, j, k, i);
    SameDone(ch[..], ido, l1, ip, With(With(S, i, k, j, true), i, k, ip - j, true), Reach(ip, 2, j, k, i + 2), f, g);
  }

  /** The first loops of radbg: sums and differences of facing frequencies go to rows of `ch`. */
  method SplitInputs(ido: nat, l1: nat, ip: nat, cc: array<real>, ch: array<real>)
    requires cc != ch && ch.Length == Times3(l1, ip, ido) && ip % 2 == 1 && ido % 2 == 1
    modifies ch
    ensures Cells(ch[..], ido, l1, ip, Split3(cc[..], ido, ip))
  {
    hide *;
    ghost var f, g := Split3(cc[..], ido, ip), CellsOf(ch[..], ido, l1);
    CellsAreTheirs(ch[..], ido, l1, ip);
    ReachPhases(ip, ido, l1, ip / 2 + 1);
    NoneDone(ch[..], ido, l1, ip, Reach(ip, 0, 0, 0, 0), f, g);
    SplitRowZero(ido, l1, ip, cc, ch, g);
    SameDone(ch[..], ido, l1, ip, Reach(ip, 0, 0, l1, 0), Reach(ip, 1, 1, 0, 0), f, g);
    SplitZeros(ido, l1, ip, cc, ch, g);
    SameDone(ch[..], ido, l1, ip, Reach(ip, 1, ip / 2 + 1, 0, 0), Reach(ip, 2, 1, 0, 1), f, g);
    SplitPairs(ido, l1, ip, cc, ch, g);
    AllDone(ch[..], ido, l1, ip, Reach(ip, 2, ip / 2 + 1, 0, 1), f, g);
  }

  // ---------- mixing ----------

  function BackMixedCell(col: seq<Complex>, r: Complex, row: nat, i: nat): real {
    if row <= |col| / 2 then Part(EvenPart(col, r, row), i)
    else if row < |col| then OddSide(TurnBack(OddPart(col, r, |col| - row)), i)
    else 0.0
  }

  /** All rows of `cc` but the first are mixed. */
  ghost predicate BackMixed(cc: seq<real>, x: seq<real>, ido: nat, ip: nat, l1: nat, r: Complex) {
    forall a: nat, b: nat, row: nat :: a < ido && b < l1 && 0 < row < ip ==>
      CellAt(cc, ido, l1, a, b, row) == BackMixedCell(Bins(x, ido, ip, b, (a + 1) / 2), r, row, a)
  }

  lemma SplitVals(ch: seq<real>, x: seq<real>, ido: nat, ip: nat, l1: nat, a: nat, b: nat, row: nat)
    requires Cells(ch, ido, l1, ip, Split3(x, ido, ip)) && a < ido && b < l1 && row < ip
    ensures Vals(ch, Prod(ido, l1), Idx(a, ido, b))(row) == SplitCell(Bins(x, ido, ip, b, (a + 1) / 2), row, a)
  {
    hide *;
    ValIsCell(ch, ido, l1, ip, a, b, row);
    CellIs(ch, ido, l1, ip, Split3(x, ido, ip), a, b, row);
    Split3Is(x, ido, ip, a, b, row);
  }

  lemma SplitRowsOf(vals: nat -> real, col: seq<Complex>, a: nat)
    requires |col| % 2 == 1 && forall u: nat :: u < |col| ==> vals(u) == SplitCell(col, u, a)
    ensures vals(0) == Part(At(col, 0), a)
    ensures forall u: nat :: 0 < u <= |col| / 2 ==> vals(u) == Part(SumOf(col, u - 1), a)
    ensures forall row: nat :: |col| - |col| / 2 <= row < |col| ==>
              vals(row) == OddSide(DiffOf(col, |col| - row - 1), a)
  {
    hide Part, SumOf, DiffOf, OddSide;
  }

  lemma BackPair(vals: nat -> real, col: seq<Complex>, r: Complex, l: nat, a: nat)
    requires |col| % 2 == 1 && 0 < l <= |col| / 2 && forall u: nat :: u < |col| ==> vals(u) == SplitCell(col, u, a)
    ensures EvenMix(r, vals, l, |col| / 2) == BackMixedCell(col, r, l, a)
    ensures OddMix(r, vals, |col|, l, |col| / 2) == BackMixedCell(col, r, |col| - l, a)
  {
    SplitRowsOf(vals, col, a);
    hide Part, SumOf, DiffOf, EvenMix, OddMix, Conj, OddSide, TurnBack, At, SplitCell;
    EvenMixPart(r, r, vals, col, l, |col| / 2, a);
    OddMixBackward(r, vals, col, |col|, l, |col| / 2, a);
  }

  lemma BackPlain(vals: nat -> real, col: seq<Complex>, r: Complex, a: nat)
    requires |col| % 2 == 1 && forall u: nat :: u < |col| ==> vals(u) == SplitCell(col, u, a)
    ensures PlainMix(vals, |col| / 2) == Part(DftAt(col, r, 0), a)
  {
    SplitRowsOf(vals, col, a);
    hide Part, SumOf, DiffOf, DftAt, PlainMix, At, Add;
    PlainMixPart(vals, col, |col| / 2, a);
    OddDftZero(col, r);
  }

  lemma BackMixedVals(cc: seq<real>, ch: seq<real>, x: seq<real>, ido: nat, ip: nat, l1: nat, r: Complex, a: nat,
                      b: nat, row: nat)
    requires Cells(ch, ido, l1, ip, Split3(x, ido, ip)) && ip % 2 == 1 && a < ido && b < l1 && 0 < row < ip
    requires MixedBelow(cc, ch, Prod(ido, l1), ip, ip / 2 + 1, r)
    ensures CellAt(cc, ido, l1, a, b, row) == BackMixedCell(Bins(x, ido, ip, b, (a + 1) / 2), r, row, a)
  {
    hide *;
    var n, ik := Prod(ido, l1), Idx(a, ido, b);
    var col, vals, l := Bins(x, ido, ip, b, (a + 1) / 2), Vals(ch, n, ik), if row <= ip / 2 then row else ip - row;
    ValIsCell(cc, ido, l1, ip, a, b, row);
    forall u: nat | u < ip
      ensures vals(u) == SplitCell(col, u, a)
    {
      SplitVals(ch, x, ido, ip, l1, a, b, u);
    }
    BackPair(vals, col, r, l, a);
    MixedAt(cc, ch, n, ip, r, ik, l);
  }

  lemma MixedAt(s: seq<real>, x: seq<real>, n: nat, ip: nat, r: Complex, ik: nat, l: nat)
    requires MixedBelow(s, x, n, ip, ip / 2 + 1, r) && ik < n && 0 < l <= ip / 2
    ensures Vals(s, n, ik)(l) == EvenMix(r, Vals(x, n, ik), l, ip / 2) &&
            Vals(s, n, ik)(ip - l) == OddMix(r, Vals(x, n, ik), ip, l, ip / 2)
  {
    hide Vals, EvenMix, OddMix;
  }

  function Summed3(x: seq<real>, ido: nat, ip: nat, r: Complex): (nat, nat, nat) -> real {
    (a: nat, b: nat, row: nat) =>
      if row == 0 then Part(DftAt(Bins(x, ido, ip, b, (a + 1) / 2), r, 0), a)
          else SplitCell(Bins(x, ido, ip, b, (a + 1) / 2), row, a)
  }

  lemma SummedVals(was: seq<real>, ch: seq<real>, x: seq<real>, ido: nat, ip: nat, l1: nat, r: Complex, a: nat, b: nat,
                   row: nat)
    requires Cells(was, ido, l1, ip, Split3(x, ido, ip)) && ip % 2 == 1 && a < ido && b < l1 && row < ip
    requires RowPair(was, ch, Prod(ido, l1), ip, 0, 0, PlainFn(was, Prod(ido, l1), (ip - 1) / 2),
                     PlainFn(was, Prod(ido, l1), (ip - 1) / 2))
    ensures CellAt(ch, ido, l1, a, b, row) == Summed3(x, ido, ip, r)(a, b, row)
  {
    var n, ik, col := Prod(ido, l1), Idx(a, ido, b), Bins(x, ido, ip, b, (a + 1) / 2);
    var vals := Vals(was, n, ik);
    assert Summed3(x, ido, ip, r)(a, b, row) == if row == 0 then Part(DftAt(col, r, 0), a)
        else SplitCell(col, row, a) by {
      hide Part, DftAt, SplitCell, Bins;
    }
    hide *;
    ValIsCell(ch, ido, l1, ip, a, b, row);
    SumsAt(was, ch, n, ip, ik, row);
    forall u: nat | u < ip
      ensures vals(u) == SplitCell(col, u, a)
    {
      SplitVals(was, x, ido, ip, l1, a, b, u);
    }
    BackPlain(vals, col, r, a);
    assert (ip - 1) / 2 == |col| / 2;
  }

  lemma SumsAt(was: seq<real>, ch: seq<real>, n: nat, ip: nat, ik: nat, row: nat)
    requires ip > 0 && RowPair(was, ch, n, ip, 0, 0, PlainFn(was, n, (ip - 1) / 2), PlainFn(was, n, (ip - 1) / 2)) &&
             ik < n && row < ip
    ensures Vals(ch, n, ik)(row) == if row == 0 then PlainMix(Vals(was, n, ik), (ip - 1) / 2) else Vals(was, n, ik)(row)
  {
    hide Vals, PlainMix;
  }

  /** The middle loops of radbg: mixed rows go to `cc`, the plain sums to row 0 of `ch`. */
  method MixSplit(ido: nat, l1: nat, ip: nat, cc: array<real>, ch: array<real>, roots: seq<Complex>, ghost x: seq<real>,
                  ghost r: Complex)
    requires cc != ch && cc.Length == ch.Length == Times3(l1, ip, ido)
    requires Cells(ch[..], ido, l1, ip, Split3(x, ido, ip))
    requires Prime(ip) && 5 <= ip && ip % 2 == 1 && PowerTable(roots, r, ip)
    modifies cc, ch
    ensures BackMixed(cc[..], x, ido, ip, l1, r) && Cells(ch[..], ido, l1, ip, Summed3(x, ido, ip, r))
  {
    var n := Prod(ido, l1);
    Sizes(l1, ip, ido);
    hide Prime, PowerTable, Prod, Times3, RowPair, MixedBelow, PlainFn, Split3, Summed3, CellAt, BackMixedCell, Bins;
    MixRealRows(n, ip, roots, ch, cc, r);
    ghost var was := ch[..];
    forall a: nat, b: nat, row: nat | a < ido && b < l1 && 0 < row < ip
      ensures CellAt(cc[..], ido, l1, a, b, row) == BackMixedCell(Bins(x, ido, ip, b, (a + 1) / 2), r, row, a)
    {
      BackMixedVals(cc[..], was, x, ido, ip, l1, r, a, b, row);
    }
    ghost var mixed := cc[..];
    assert BackMixed(mixed, x, ido, ip, l1, r);
    SumRowsInPlace(n, ip, ch);
    forall a: nat, b: nat, row: nat | a < ido && b < l1 && row < ip
      ensures CellAt(ch[..], ido, l1, a, b, row) == Summed3(x, ido, ip, r)(a, b, row)
    {
      SummedVals(was, ch[..], x, ido, ip, l1, r, a, b, row);
    }
    assert cc[..] == mixed;
  }

  // ---------- the outputs ----------

  function Out3(x: seq<real>, ido: nat, ip: nat, r: Complex): (nat, nat, nat) -> real {
    (a: nat, b: nat, row: nat) => Part(DftAt(Bins(x, ido, ip, b, (a + 1) / 2), r, row), a)
  }

  lemma Out3Is(x: seq<real>, ido: nat, ip: nat, r: Complex, a: nat, b: nat, row: nat)
    ensures Out3(x, ido, ip, r)(a, b, row) == Part(DftAt(Bins(x, ido, ip, b, (a + 1) / 2), r, row), a)
  {
    hide Part, DftAt, Bins;
  }

  lemma MixedIs(cc: seq<real>, x: seq<real>, ido: nat, ip: nat, l1: nat, r: Complex, a: nat, b: nat, row: nat)
    requires BackMixed(cc, x, ido, ip, l1, r) && a < ido && b < l1 && 0 < row < ip
    ensures CellAt(cc, ido, l1, a, b, row) == BackMixedCell(Bins(x, ido, ip, b, (a + 1) / 2), r, row, a)
  {
    hide CellAt, BackMixedCell, Bins;
  }

  /** What a pair of mixed cells says about two outputs. */
  lemma OutPair(cc: seq<real>, x: seq<real>, ido: nat, ip: nat, l1: nat, r: Complex, k: nat, q: nat, j: nat)
    requires BackMixed(cc, x, ido, ip, l1, r) && FullCircle(r, ip) && ip % 2 == 1 && 0 < j <= ip / 2 && k < l1 &&
             0 < q && 2 * q < ido
    ensures var e, o := Complex(CellAt(cc, ido, l1, 2 * q - 1, k, j), CellAt(cc, ido, l1, 2 * q, k, j)),
                        Complex(CellAt(cc, ido, l1, 2 * q - 1, k, ip - j), CellAt(cc, ido, l1, 2 * q, k, ip - j));
            && Add(e, Turn(o)) == Complex(Out3(x, ido, ip, r)(2 * q - 1, k, j),
                                          Out3(x, ido, ip, r)(2 * q - 1 + 1, k, j))
            && Sub(e, Turn(o)) == Complex(Out3(x, ido, ip, r)(2 * q - 1, k, ip - j),
                                          Out3(x, ido, ip, r)(2 * q - 1 + 1, k, ip - j))
  {
    hide *;
    var col := Bins(x, ido, ip, k, q);
    assert (2 * q - 1 + 1) / 2 == q && (2 * q + 1) / 2 == q;
    MixedIs(cc, x, ido, ip, l1, r, 2 * q - 1, k, j);
    MixedIs(cc, x, ido, ip, l1, r, 2 * q, k, j);
    MixedIs(cc, x, ido, ip, l1, r, 2 * q - 1, k, ip - j);
    MixedIs(cc, x, ido, ip, l1, r, 2 * q, k, ip - j);
    Out3Is(x, ido, ip, r, 2 * q - 1, k, j);
    Out3Is(x, ido, ip, r, 2 * q, k, j);
    Out3Is(x, ido, ip, r, 2 * q - 1, k, ip - j);
    Out3Is(x, ido, ip, r, 2 * q, k, ip - j);
    CircleOne(r, ip);
    OutCells(col, r, j, q);
  }

  lemma CircleOne(r: Complex, ip: nat)
    requires FullCircle(r, ip)
    ensures Mul(r, Conj(r)) == ONE && Pow(r, ip) == ONE
  {}

  lemma OutCells(col: seq<Complex>, r: Complex, j: nat, q: nat)
    requires |col| % 2 == 1 && 0 < j <= |col| / 2 && q > 0 && Mul(r, Conj(r)) == ONE && Pow(r, |col|) == ONE
    ensures var e, o := Complex(BackMixedCell(col, r, j, 2 * q - 1), BackMixedCell(col, r, j, 2 * q)),
                        Complex(BackMixedCell(col, r, |col| - j, 2 * q - 1), BackMixedCell(col, r, |col| - j, 2 * q));
            && Add(e, Turn(o)) == Complex(Part(DftAt(col, r, j), 2 * q - 1), Part(DftAt(col, r, j), 2 * q))
            && Sub(e, Turn(o)) == Complex(Part(DftAt(col, r, |col| - j), 2 * q - 1),
                                          Part(DftAt(col, r, |col| - j), 2 * q))
  {
    OddDft(col, r, j);
    OddDftMirror(col, r, j);
    PartPair(EvenPart(col, r, j), q);
    PartPair(TurnBack(OddPart(col, r, j)), q);
    PartPair(DftAt(col, r, j), q);
    PartPair(DftAt(col, r, |col| - j), q);
    TurnForth(0.0, OddPart(col, r, j));
    hide DftAt, EvenPart, OddPart, Part, OddSide, Turn, TurnBack, Mul, Pow, Conj, Add, Sub;
  }

  lemma OutZero(cc: seq<real>, x: seq<real>, ido: nat, ip: nat, l1: nat, r: Complex, k: nat, j: nat)
    requires BackMixed(cc, x, ido, ip, l1, r) && FullCircle(r, ip) && ip % 2 == 1 && 0 < j <= ip / 2 && k < l1 &&
             ido > 0
    ensures CellAt(cc, ido, l1, 0, k, j) - CellAt(cc, ido, l1, 0, k, ip - j) == Out3(x, ido, ip, r)(0, k, j)
    ensures CellAt(cc, ido, l1, 0, k, j) + CellAt(cc, ido, l1, 0, k, ip - j) == Out3(x, ido, ip, r)(0, k, ip - j)
  {
    hide *;
    var col := Bins(x, ido, ip, k, 0);
    MixedIs(cc, x, ido, ip, l1, r, 0, k, j);
    MixedIs(cc, x, ido, ip, l1, r, 0, k, ip - j);
    Out3Is(x, ido, ip, r, 0, k, j);
    Out3Is(x, ido, ip, r, 0, k, ip - j);
    CircleOne(r, ip);
    OutCellsZero(col, r, j);
  }

  lemma OutCellsZero(col: seq<Complex>, r: Complex, j: nat)
    requires |col| % 2 == 1 && 0 < j <= |col| / 2 && Mul(r, Conj(r)) == ONE && Pow(r, |col|) == ONE
    ensures BackMixedCell(col, r, j, 0) - BackMixedCell(col, r, |col| - j, 0) == Part(DftAt(col, r, j), 0)
    ensures BackMixedCell(col, r, j, 0) + BackMixedCell(col, r, |col| - j, 0) == Part(DftAt(col, r, |col| - j), 0)
  {
    OddDft(col, r, j);
    OddDftMirror(col, r, j);
    hide DftAt, EvenPart, OddPart, Mul, Pow, Conj;
  }

  /** The loops that recombine the mixed rows: the zero frequencies, then the pairs. */
  method Recombine3(ido: nat, l1: nat, ip: nat, cc: array<real>, ch: array<real>, ghost x: seq<real>, ghost r: Complex)
    requires cc != ch && ip % 2 == 1 && ido % 2 == 1 && FullCircle(r, ip)
    requires BackMixed(cc[..], x, ido, ip, l1, r) && Cells(ch[..], ido, l1, ip, Summed3(x, ido, ip, r))
    modifies ch
    ensures Cells(ch[..], ido, l1, ip, Out3(x, ido, ip, r))
  {
    hide *;
    ghost var f, g, y := Out3(x, ido, ip, r), Summed3(x, ido, ip, r), cc[..];
    RowZeroOut(ido, l1, ip, x, r);
    NoneDone(ch[..], ido, l1, ip, Reach(ip, 1, 1, 0, 0), f, g);
    for j := 1 to ip / 2 + 1
      invariant cc[..] == y && Cells(ch[..], ido, l1, ip, Under(Reach(ip, 1, j, 0, 0), f, g))
    {
      for k := 0 to l1
        invariant cc[..] == y && Cells(ch[..], ido, l1, ip, Under(Reach(ip, 1, j, k, 0), f, g))
      {
        RecombineZero(ido, l1, ip, cc, ch, j, k, x, r);
      }
      ReachTurns(ip, ido, l1, j, 0, ido);
      SameDone(ch[..], ido, l1, ip, Reach(ip, 1, j, l1, 0), Reach(ip, 1, j + 1, 0, 0), f, g);
    }
    ReachPhases(ip, ido, l1, ip / 2 + 1);
    SameDone(ch[..], ido, l1, ip, Reach(ip, 1, ip / 2 + 1, 0, 0), Reach(ip, 2, 1, 0, 1), f, g);
    RecombinePairs(ido, l1, ip, cc, ch, x, r);
    AllDone(ch[..], ido, l1, ip, Reach(ip, 2, ip / 2 + 1, 0, 1), f, g);
  }

  lemma RowZeroOut(ido: nat, l1: nat, ip: nat, x: seq<real>, r: Complex)
    requires ip % 2 == 1
    ensures forall a: nat, b: nat, c: nat :: a < ido && b < l1 && c < ip ==>
              !Reach(ip, 1, 1, 0, 0)(a, b, c) || Out3(x, ido, ip, r)(a, b, c) == Summed3(x, ido, ip, r)(a, b, c)
  {
    ReachPhases(ip, ido, l1, ip / 2 + 1);
    hide Part, DftAt, Bins, SplitCell, Reach;
  }

  method RecombineZero(ido: nat, l1: nat, ip: nat, cc: array<real>, ch: array<real>, j: nat, k: nat, ghost x: seq<real>,
                       ghost r: Complex)
    requires cc != ch && ip % 2 == 1 && ido > 0 && FullCircle(r, ip) && 0 < j <= ip / 2 && k < l1 &&
             BackMixed(cc[..], x, ido, ip, l1, r)
    requires Cells(ch[..], ido, l1, ip, Under(Reach(ip, 1, j, k, 0), Out3(x, ido, ip, r), Summed3(x, ido, ip, r)))
    modifies ch
    ensures Cells(ch[..], ido, l1, ip, Under(Reach(ip, 1, j, k + 1, 0), Out3(x, ido, ip, r), Summed3(x, ido, ip, r)))
  {
    hide *;
    ghost var f, g, S := Out3(x, ido, ip, r), Summed3(x, ido, ip, r), Reach(ip, 1, j, k, 0);
    var t1, t2 := CellAt(cc[..], ido, l1, 0, k, j), CellAt(cc[..], ido, l1, 0, k, ip - j);
    OutZero(cc[..], x, ido, ip, l1, r, k, j);
    PutCell(ch, ido, l1, ip, 0, k, j, t1 - t2, S, f, g);
    PutCell(ch, ido, l1, ip, 0, k, ip - j, t1 + t2, With(S, 0, k, j, false), f, g);
    ReachZero(ip, ido, l1, j, k);
    SameDone(ch[..], ido, l1, ip, With(With(S, 0, k, j, false), 0, k, ip - j, false), Reach(ip, 1, j, k + 1, 0), f, g);
  }

  method RecombinePairs(ido: nat, l1: nat, ip: nat, cc: array<real>, ch: array<real>, ghost x: seq<real>,
                        ghost r: Complex)
    requires cc != ch && ip % 2 == 1 && ido % 2 == 1 && FullCircle(r, ip) && BackMixed(cc[..], x, ido, ip, l1, r)
    requires Cells(ch[..], ido, l1, ip, Under(Reach(ip, 2, 1, 0, 1), Out3(x, ido, ip, r), Summed3(x, ido, ip, r)))
    modifies ch
    ensures Cells(ch[..], ido, l1, ip, Under(Reach(ip, 2, ip / 2 + 1, 0, 1), Out3(x, ido, ip, r),
                                             Summed3(x, ido, ip, r)))
  {
    hide *;
    ghost var f, g, y := Out3(x, ido, ip, r), Summed3(x, ido, ip, r), cc[..];
    for j := 1 to ip / 2 + 1
      invariant cc[..] == y && Cells(ch[..], ido, l1, ip, Under(Reach(ip, 2, j, 0, 1), f, g))
    {
      for k := 0 to l1
        invariant cc[..] == y && Cells(ch[..], ido, l1, ip, Under(Reach(ip, 2, j, k, 1), f, g))
      {
        var i := 1;
        while i + 1 < ido
          invariant i % 2 == 1 && i <= ido
          invariant cc[..] == y && Cells(ch[..], ido, l1, ip, Under(Reach(ip, 2, j, k, i), f, g))
        {
          RecombinePair(ido, l1, ip, cc, ch, j, k, i, x, r);
          i := i + 2;
        }
        ReachTurns(ip, ido, l1, j, k, i);
        SameDone(ch[..], ido, l1, ip, Reach(ip, 2, j, k, i), Reach(ip, 2, j, k + 1, 1), f, g);
      }
      ReachTurns(ip, ido, l1, j, 0, ido);
      SameDone(ch[..], ido, l1, ip, Reach(ip, 2, j, l1, 1), Reach(ip, 2, j + 1, 0, 1), f, g);
    }
  }

  method RecombinePair(ido: nat, l1: nat, ip: nat, cc: array<real>, ch: array<real>, j: nat, k: nat, i: nat,
                       ghost x: seq<real>, ghost r: Complex)
    requires cc != ch && ip % 2 == 1 && FullCircle(r, ip) && 0 < j <= ip / 2 && k < l1 &&
             BackMixed(cc[..], x, ido, ip, l1, r)
    requires i % 2 == 1 && i + 1 < ido
    requires Cells(ch[..], ido, l1, ip, Under(Reach(ip, 2, j, k, i), Out3(x, ido, ip, r), Summed3(x, ido, ip, r)))
    modifies ch
    ensures Cells(ch[..], ido, l1, ip, Under(Reach(ip, 2, j, k, i + 2), Out3(x, ido, ip, r), Summed3(x, ido, ip, r)))
  {
    hide *;
    ghost var f, g, S := Out3(x, ido, ip, r), Summed3(x, ido, ip, r), Reach(ip, 2, j, k, i);
    var q := (i + 1) / 2;
    assert 2 * q - 1 == i;
    var e := Complex(CellAt(cc[..], ido, l1, i, k, j), CellAt(cc[..], ido, l1, i + 1, k, j));
    var o := Complex(CellAt(cc[..], ido, l1, i, k, ip - j), CellAt(cc[..], ido, l1, i + 1, k, ip - j));
    OutPair(cc[..], x, ido, ip, l1, r, k, q, j);
    PutPair(ch, ido, l1, ip, i, k, j, Add(e, Turn(o)), S, f, g);
    PutPair(ch, ido, l1, ip, i, k, ip - j, Sub(e, Turn(o)), With(S, i, k, j, true), f, g);
    ReachPair(ip, ido, l1, j, k, i);
    SameDone(ch[..], ido, l1, ip, With(With(S, i, k, j, true), i, k, ip - j, true), Reach(ip, 2, j, k, i + 2), f, g);
  }

  // ---------- the factors ----------

  function Final3(x: seq<real>, wa: seq<real>, ido: nat, ip: nat, r: Complex): (nat, nat, nat) -> real {
    (a: nat, b: nat, row: nat) => Part(FinalValue(x, wa, ido, ip, r, (a + 1) / 2, b, row), a)
  }

  function FinalValue(x: seq<real>, wa: seq<real>, ido: nat, ip: nat, r: Complex, q: nat, k: nat, j: nat): Complex {
    if q == 0 || j == 0 || ido == 0 then DftAt(Bins(x, ido, ip, k, q), r, j)
    else Mul(FactorAt(wa, ido, q, j), DftAt(Bins(x, ido, ip, k, q), r, j))
  }

  lemma Final3Is(x: seq<real>, wa: seq<real>, ido: nat, ip: nat, r: Complex, a: nat, b: nat, row: nat)
    ensures Final3(x, wa, ido, ip, r)(a, b, row) == Part(FinalValue(x, wa, ido, ip, r, (a + 1) / 2, b, row), a)
  {
    hide Part, FinalValue;
  }

  /** The zero frequencies and row 0 take no factor. */
  function Turned(j: nat, k: nat, i: nat): (nat, nat, nat) -> bool {
    (a: nat, b: nat, c: nat) => a == 0 || c == 0 || c < j || (c == j && (b < k || (b == k && a < i)))
  }

  lemma TurnedTurns(ido: nat, l1: nat, ip: nat, j: nat, k: nat, i: nat)
    requires i > 0
    ensures i >= ido ==> SameSet(ido, l1, ip, Turned(j, k, i), Turned(j, k + 1, 1))
    ensures SameSet(ido, l1, ip, Turned(j, l1, 1), Turned(j + 1, 0, 1))
    ensures SameSet(ido, l1, ip, With(Turned(j, k, i), i, k, j, true), Turned(j, k, i + 2))
    ensures forall a: nat, b: nat, c: nat :: a < ido && b < l1 && c < ip ==> Turned(ip, 0, 1)(a, b, c)
  {}

  lemma NotTurned(j: nat, k: nat, i: nat)
    requires i > 0 && j > 0
    ensures !Turned(j, k, i)(i, k, j) && !Turned(j, k, i)(i + 1, k, j)
  {}

  lemma TurnedStarts(ido: nat, l1: nat, ip: nat, x: seq<real>, wa: seq<real>, r: Complex)
    ensures forall a: nat, b: nat, c: nat :: a < ido && b < l1 && c < ip ==>
              !Turned(1, 0, 1)(a, b, c) || Final3(x, wa, ido, ip, r)(a, b, c) == Out3(x, ido, ip, r)(a, b, c)
  {
    hide Part, DftAt, Bins, Mul, FactorAt;
  }

  /** The last loop of radbg: every pair of cells is turned by its factor. */
  method TurnRows(ido: nat, l1: nat, ip: nat, ch: array<real>, wa: seq<real>, ghost x: seq<real>, ghost r: Complex)
    requires ip > 0 && ido % 2 == 1 && Cells(ch[..], ido, l1, ip, Out3(x, ido, ip, r))
    modifies ch
    ensures Cells(ch[..], ido, l1, ip, Final3(x, wa, ido, ip, r))
  {
    hide *;
    ghost var f, g := Final3(x, wa, ido, ip, r), Out3(x, ido, ip, r);
    TurnedStarts(ido, l1, ip, x, wa, r);
    NoneDone(ch[..], ido, l1, ip, Turned(1, 0, 1), f, g);
    for j := 1 to ip
      invariant Cells(ch[..], ido, l1, ip, Under(Turned(j, 0, 1), f, g))
    {
      for k := 0 to l1
        invariant Cells(ch[..], ido, l1, ip, Under(Turned(j, k, 1), f, g))
      {
        var i := 1;
        while i + 1 < ido
          invariant i % 2 == 1 && i <= ido
          invariant Cells(ch[..], ido, l1, ip, Under(Turned(j, k, i), f, g))
        {
          TurnPair(ido, l1, ip, ch, wa, j, k, i, x, r);
          i := i + 2;
        }
        TurnedTurns(ido, l1, ip, j, k, i);
        SameDone(ch[..], ido, l1, ip, Turned(j, k, i), Turned(j, k + 1, 1), f, g);
      }
      TurnedTurns(ido, l1, ip, j, 0, 1);
      SameDone(ch[..], ido, l1, ip, Turned(j, l1, 1), Turned(j + 1, 0, 1), f, g);
    }
    TurnedTurns(ido, l1, ip, ip, 0, 1);
    AllDone(ch[..], ido, l1, ip, Turned(ip, 0, 1), f, g);
  }

  method TurnPair(ido: nat, l1: nat, ip: nat, ch: array<real>, wa: seq<real>, j: nat, k: nat, i: nat,
                  ghost x: seq<real>, ghost r: Complex)
    requires 0 < j < ip && k < l1 && i % 2 == 1 && i + 1 < ido
    requires Cells(ch[..], ido, l1, ip, Under(Turned(j, k, i), Final3(x, wa, ido, ip, r), Out3(x, ido, ip, r)))
    modifies ch
    ensures Cells(ch[..], ido, l1, ip, Under(Turned(j, k, i + 2), Final3(x, wa, ido, ip, r), Out3(x, ido, ip, r)))
  {
    hide *;
    NotTurned(j, k, i);
    ghost var f, g, S := Final3(x, wa, ido, ip, r), Out3(x, ido, ip, r), Turned(j, k, i);
    NotDone(ch[..], ido, l1, ip, S, f, g, i, k, j);
    NotDone(ch[..], ido, l1, ip, S, f, g, i + 1, k, j);
    var z := Complex(CellAt(ch[..], ido, l1, i, k, j), CellAt(ch[..], ido, l1, i + 1, k, j));
    TurnedValue(x, wa, ido, ip, r, j, k, (i + 1) / 2);
    assert 2 * ((i + 1) / 2) - 1 == i;
    PutPair(ch, ido, l1, ip, i, k, j, Mul(FactorAt(wa, ido, (i + 1) / 2, j), z), S, f, g);
    TurnedTurns(ido, l1, ip, j, k, i);
    SameDone(ch[..], ido, l1, ip, With(S, i, k, j, true), Turned(j, k, i + 2), f, g);
  }

  lemma TurnedValue(x: seq<real>, wa: seq<real>, ido: nat, ip: nat, r: Complex, j: nat, k: nat, q: nat)
    requires q > 0 && j > 0 && ido > 0
    ensures var z := Complex(Out3(x, ido, ip, r)(2 * q - 1, k, j), Out3(x, ido, ip, r)(2 * q - 1 + 1, k, j));
            Mul(FactorAt(wa, ido, q, j), z) == Complex(Final3(x, wa, ido, ip, r)(2 * q - 1, k, j),
                                                       Final3(x, wa, ido, ip, r)(2 * q - 1 + 1, k, j))
  {
    hide *;
    assert (2 * q - 1 + 1) / 2 == q && (2 * q + 1) / 2 == q;
    Out3Is(x, ido, ip, r, 2 * q - 1, k, j);
    Out3Is(x, ido, ip, r, 2 * q, k, j);
    Final3Is(x, wa, ido, ip, r, 2 * q - 1, k, j);
    Final3Is(x, wa, ido, ip, r, 2 * q, k, j);
    PartPair(DftAt(Bins(x, ido, ip, k, q), r, j), q);
    PartPair(FinalValue(x, wa, ido, ip, r, q, k, j), q);
    FinalTurned(x, wa, ido, ip, r, q, k, j);
  }

  lemma FinalTurned(x: seq<real>, wa: seq<real>, ido: nat, ip: nat, r: Complex, q: nat, k: nat, j: nat)
    requires q > 0 && j > 0 && ido > 0
    ensures FinalValue(x, wa, ido, ip, r, q, k, j) == Mul(FactorAt(wa, ido, q, j), DftAt(Bins(x, ido, ip, k, q), r, j))
  {
    hide Mul, FactorAt, DftAt, Bins;
  }

  lemma FinalRight(y: seq<real>, x: seq<real>, wa: seq<real>, w: Complex, ido: nat, ip: nat, l1: nat, k: nat, j: nat,
                   q: nat)
    requires Cells(y, ido, l1, ip, Final3(x, wa, ido, ip, Pow(w, Prod(l1, ido)))) && TableFactors(wa, w, ido, ip, l1)
    requires k < l1 && j < ip && 2 * q < ido
    ensures BackwardRight(y, x, w, ido, ip, l1, k, j, q)
  {
    hide *;
    var r := Pow(w, Prod(l1, ido));
    var z, a := FinalValue(x, wa, ido, ip, r, q, k, j), if q == 0 then 0 else 2 * q - 1;
    FinalIsBin(x, wa, w, ido, ip, l1, k, j, q);
    CellBin(y, ido, l1, q, k, j);
    CellIs(y, ido, l1, ip, Final3(x, wa, ido, ip, r), a, k, j);
    CellIs(y, ido, l1, ip, Final3(x, wa, ido, ip, r), 2 * q, k, j);
    Final3Is(x, wa, ido, ip, r, a, k, j);
    Final3Is(x, wa, ido, ip, r, 2 * q, k, j);
    assert (a + 1) / 2 == q && (2 * q + 1) / 2 == q;
    if q > 0 { PartPair(z, q); }
    KeptParts(ido, q, z);
    RightIs(y, x, w, ido, ip, l1, k, j, q);
  }

  lemma FinalIsBin(x: seq<real>, wa: seq<real>, w: Complex, ido: nat, ip: nat, l1: nat, k: nat, j: nat, q: nat)
    requires TableFactors(wa, w, ido, ip, l1) && j < ip && 2 * q < ido
    ensures FinalValue(x, wa, ido, ip, Pow(w, Prod(l1, ido)), q, k, j) == BackwardBin(x, w, ido, ip, l1, k, j, q)
  {
    if q == 0 || j == 0 { NoTurn(w, l1, q, j); }
    hide Mul, DftAt, Bins, FactorAt, Times3, Prod, Pow;
    MulOne(DftAt(Bins(x, ido, ip, k, q), Pow(w, Prod(l1, ido)), j));
  }

  lemma KeptParts(ido: nat, q: nat, z: Complex)
    requires 2 * q < ido
    ensures Kept(ido, q, z) == if q == 0 then Complex(Part(z, 0), 0.0) else z
  {}

  lemma RightIs(y: seq<real>, x: seq<real>, w: Complex, ido: nat, ip: nat, l1: nat, k: nat, j: nat, q: nat)
    requires BlockBin(y, ido, Idx(k, l1, j), q) == Kept(ido, q, BackwardBin(x, w, ido, ip, l1, k, j, q))
    ensures BackwardRight(y, x, w, ido, ip, l1, k, j, q)
  {}

  lemma AllTurned(y: seq<real>, x: seq<real>, wa: seq<real>, w: Complex, ido: nat, ip: nat, l1: nat)
    requires Cells(y, ido, l1, ip, Final3(x, wa, ido, ip, Pow(w, Prod(l1, ido)))) && TableFactors(wa, w, ido, ip, l1)
    requires |x| == Times3(l1, ip, ido) && FullCircle(w, Times3(l1, ip, ido)) && ido % 2 == 1 && ip > 0
    ensures IsRealBackward(x, y, w, ido, ip, l1)
  {
    forall k: nat, j: nat, q: nat | k < l1 && j < ip && q < ido && 2 * q <= ido
      ensures BackwardRight(y, x, w, ido, ip, l1, k, j, q)
    {
      FinalRight(y, x, wa, w, ido, ip, l1, k, j, q);
    }
    hide Mul, Pow, Conj, Times3, BackwardRight, Final3, TableFactors;
    BackwardFromLower(y, x, w, ido, ip, l1);
  }

  /** radbg. */
  method RadBG(ido: nat, ip: nat, l1: nat, cc: array<real>, ch: array<real>, wa: seq<real>, roots: seq<Complex>,
               ghost w: Complex)
    requires cc != ch && cc.Length == ch.Length == Times3(l1, ip, ido) && ido % 2 == 1
    requires Prime(ip) && 5 <= ip && ip % 2 == 1
    requires UnitRoot(w, Times3(l1, ip, ido)) && TableFactors(wa, w, ido, ip, l1) &&
             PowerTable(roots, Pow(w, Prod(l1, ido)), ip)
    modifies cc, ch
    ensures IsRealBackward(old(cc[..]), ch[..], w, ido, ip, l1)
  {
    ghost var x, r := cc[..], Pow(w, Prod(l1, ido));
    RootCircle(w, Times3(l1, ip, ido));
    ColumnCircle(w, ido, ip, l1);
    hide *;
    SplitInputs(ido, l1, ip, cc, ch);
    MixSplit(ido, l1, ip, cc, ch, roots, x, r);
    Recombine3(ido, l1, ip, cc, ch, x, r);
    TurnRows(ido, l1, ip, ch, wa, x, r);
    AllTurned(ch[..], x, wa, w, ido, ip, l1);
  }

  lemma ColumnCircle(w: Complex, ido: nat, ip: nat, l1: nat)
    requires UnitRoot(w, Times3(l1, ip, ido))
    ensures FullCircle(Pow(w, Prod(l1, ido)), ip)
  {
    ColumnRoot(w, 1, l1, ip, ido);
    hide Pow, Mul, Conj;
  }
}
