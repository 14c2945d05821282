/** Rows of real numbers, and the loops in which the two generic real passes mix them. */
module RealRows {
  import opened Basics
  import opened Complexes
  import opened RadixPass
  import opened Passes
  import opened Primes
  import opened PassG
  import opened RealSpectra

  // ---------- cells ----------

  /** The whole buffer, cell by cell. */
  ghost predicate Cells(s: seq<real>, ido: nat, l1: nat, ip: nat, f: (nat, nat, nat) -> real) {
    && |s| == Times3(l1, ip, ido)
    && forall i: nat, k: nat, row: nat :: i < ido && k < l1 && row < ip ==>
        CellAt(s, ido, l1, i, k, row) == f(i, k, row)
  }

  lemma CellsSame(s: seq<real>, ido: nat, l1: nat, ip: nat, f: (nat, nat, nat) -> real, g: (nat, nat, nat) -> real)
    requires Cells(s, ido, l1, ip, f)
    requires forall i: nat, k: nat, row: nat :: i < ido && k < l1 && row < ip ==> f(i, k, row) == g(i, k, row)
    ensures Cells(s, ido, l1, ip, g)
  {}

  /** One cell is written. */
  lemma CellSet(s: seq<real>, ido: nat, l1: nat, ip: nat, f: (nat, nat, nat) -> real, i: nat, k: nat, row: nat, v: real)
    requires Cells(s, ido, l1, ip, f) && i < ido && k < l1 && row < ip
    ensures Idx(i, ido, Idx(k, l1, row)) < |s|
    ensures Cells(s[Idx(i, ido, Idx(k, l1, row)) := v], ido, l1, ip, SetAt(f, i, k, row, v))
  {
    hide Times3, Idx;
    CellIndex(ido, l1, ip, i, k, row);
    var at := Idx(i, ido, Idx(k, l1, row));
    var s' := s[at := v];
    forall a: nat, b: nat, c: nat | a < ido && b < l1 && c < ip
      ensures CellAt(s', ido, l1, a, b, c) == SetAt(f, i, k, row, v)(a, b, c)
    {
      CellIndex(ido, l1, ip, a, b, c);
      if Idx(a, ido, Idx(b, l1, c)) == at {
        IdxInjective(a, ido, Idx(b, l1, c), i, Idx(k, l1, row));
        IdxInjective(b, l1, c, k, row);
      }
      assert CellAt(s, ido, l1, a, b, c) == f(a, b, c);
    }
  }

  function SetAt(f: (nat, nat, nat) -> real, i: nat, k: nat, row: nat, v: real): (nat, nat, nat) -> real {
    (a: nat, b: nat, c: nat) => if a == i && b == k && c == row then v else f(a, b, c)
  }

  method SetCell(buf: array<real>, ido: nat, l1: nat, ip: nat, i: nat, k: nat, row: nat, v: real,
                 ghost f: (nat, nat, nat) -> real)
    requires Cells(buf[..], ido, l1, ip, f) && i < ido && k < l1 && row < ip
    modifies buf
    ensures Cells(buf[..], ido, l1, ip, SetAt(f, i, k, row, v))
  {
    hide Idx, Times3, Cells;
    CellSet(buf[..], ido, l1, ip, f, i, k, row, v);
    ghost var was := buf[..];
    var at := Idx(i, ido, Idx(k, l1, row));
    buf[at] := v;
    assert buf[..] == was[at := v];
  }

  lemma CellIs(s: seq<real>, ido: nat, l1: nat, ip: nat, f: (nat, nat, nat) -> real, i: nat, k: nat, row: nat)
    requires Cells(s, ido, l1, ip, f) && i < ido && k < l1 && row < ip
    ensures CellAt(s, ido, l1, i, k, row) == f(i, k, row)
  {}

  // ---------- cells under way ----------

  /** `f` in the cells that are done, `g` in the others. */
  function Under(done: (nat, nat, nat) -> bool, f: (nat, nat, nat) -> real,
                 g: (nat, nat, nat) -> real): (nat, nat, nat) -> real
  {
    (a: nat, b: nat, c: nat) => if done(a, b, c) then f(a, b, c) else g(a, b, c)
  }

  ghost predicate SameSet(ido: nat, l1: nat, ip: nat, S: (nat, nat, nat) -> bool, T: (nat, nat, nat) -> bool) {
    forall a: nat, b: nat, c: nat :: a < ido && b < l1 && c < ip ==> (S(a, b, c) <==> T(a, b, c))
  }

  lemma SameDone(s: seq<real>, ido: nat, l1: nat, ip: nat, done: (nat, nat, nat) -> bool,
                 done': (nat, nat, nat) -> bool, f: (nat, nat, nat) -> real, g: (nat, nat, nat) -> real)
    requires Cells(s, ido, l1, ip, Under(done, f, g)) && SameSet(ido, l1, ip, done, done')
    ensures Cells(s, ido, l1, ip, Under(done', f, g))
  {
    CellsSame(s, ido, l1, ip, Under(done, f, g), Under(done', f, g));
  }

  /** One more cell, or two adjacent ones. */
  function With(done: (nat, nat, nat) -> bool, i: nat, k: nat, row: nat, pair: bool): (nat, nat, nat) -> bool {
    (a: nat, b: nat, c: nat) => done(a, b, c) || ((a == i || (pair && a == i + 1)) && b == k && c == row)
  }

  method PutCell(buf: array<real>, ido: nat, l1: nat, ip: nat, i: nat, k: nat, row: nat, v: real,
                 ghost done: (nat, nat, nat) -> bool, ghost f: (nat, nat, nat) -> real,
                 ghost g: (nat, nat, nat) -> real)
    requires Cells(buf[..], ido, l1, ip, Under(done, f, g)) && i < ido && k < l1 && row < ip && v == f(i, k, row)
    modifies buf
    ensures Cells(buf[..], ido, l1, ip, Under(With(done, i, k, row, false), f, g))
  {
    hide Cells;
    SetCell(buf, ido, l1, ip, i, k, row, v, Under(done, f, g));
    CellsSame(buf[..], ido, l1, ip, SetAt(Under(done, f, g), i, k, row, v), Under(With(done, i, k, row, false), f, g));
  }

  /** The parts of a complex value. */
  method PutPair(buf: array<real>, ido: nat, l1: nat, ip: nat, i: nat, k: nat, row: nat, z: Complex,
                 ghost done: (nat, nat, nat) -> bool, ghost f: (nat, nat, nat) -> real,
                 ghost g: (nat, nat, nat) -> real)
    requires Cells(buf[..], ido, l1, ip, Under(done, f, g)) && i + 1 < ido && k < l1 && row < ip
    requires z == Complex(f(i, k, row), f(i + 1, k, row))
    modifies buf
    ensures Cells(buf[..], ido, l1, ip, Under(With(done, i, k, row, true), f, g))
  {
    hide Cells, Under;
    ghost var half := With(done, i, k, row, false);
    PutCell(buf, ido, l1, ip, i, k, row, z.re, done, f, g);
    PutCell(buf, ido, l1, ip, i + 1, k, row, z.im, half, f, g);
    SameDone(buf[..], ido, l1, ip, With(half, i + 1, k, row, false), With(done, i, k, row, true), f, g);
  }

  /** A cell not done yet still holds what it held. */
  lemma NotDone(s: seq<real>, ido: nat, l1: nat, ip: nat, done: (nat, nat, nat) -> bool, f: (nat, nat, nat) -> real,
                g: (nat, nat, nat) -> real, i: nat, k: nat, row: nat)
    requires Cells(s, ido, l1, ip, Under(done, f, g)) && i < ido && k < l1 && row < ip && !done(i, k, row)
    ensures CellAt(s, ido, l1, i, k, row) == g(i, k, row)
  {}

  lemma AllDone(s: seq<real>, ido: nat, l1: nat, ip: nat, done: (nat, nat, nat) -> bool, f: (nat, nat, nat) -> real,
                g: (nat, nat, nat) -> real)
    requires Cells(s, ido, l1, ip, Under(done, f, g))
    requires forall a: nat, b: nat, c: nat :: a < ido && b < l1 && c < ip ==> done(a, b, c)
    ensures Cells(s, ido, l1, ip, f)
  {
    CellsSame(s, ido, l1, ip, Under(done, f, g), f);
  }

  lemma NoneDone(s: seq<real>, ido: nat, l1: nat, ip: nat, done: (nat, nat, nat) -> bool, f: (nat, nat, nat) -> real,
                 g: (nat, nat, nat) -> real)
    requires Cells(s, ido, l1, ip, g)
    requires forall a: nat, b: nat, c: nat :: a < ido && b < l1 && c < ip ==> !done(a, b, c) || f(a, b, c) == g(a, b, c)
    ensures Cells(s, ido, l1, ip, Under(done, f, g))
  {
    CellsSame(s, ido, l1, ip, g, Under(done, f, g));
  }

  function CellsOf(s: seq<real>, ido: nat,
                   l1: nat): (nat, nat, nat) -> real { (a: nat, b: nat, c: nat) => CellAt(s, ido, l1, a, b, c) }

  lemma CellsAreTheirs(s: seq<real>, ido: nat, l1: nat, ip: nat)
    requires |s| == Times3(l1, ip, ido)
    ensures Cells(s, ido, l1, ip, CellsOf(s, ido, l1))
  {}

  // ---------- rows ----------

  /** The column of cells at flat position `ik`, row by row. */
  function Vals(s: seq<real>, n: nat, ik: nat): nat -> real { (row: nat) => Slot(s, Idx(ik, n, row)) }

  function EvenMix(r: Complex, a: nat -> real, l: nat, t: nat): real {
    if t == 0 then a(0) else EvenMix(r, a, l, t - 1) + Times(Pow(r, t * l).re, a(t))
  }

  function OddMix(r: Complex, a: nat -> real, ip: nat, l: nat, t: nat): real {
    if t == 0 then 0.0 else OddMix(r, a, ip, l, t - 1) + Times(Pow(r, t * l).im, a(if t <= ip then ip - t else 0))
  }

  function PlainMix(a: nat -> real, t: nat): real { if t == 0 then a(0) else PlainMix(a, t - 1) + a(t) }

  /** From `s0` to `s`, rows `l` and `lc` became `f` and `g`, and no other row changed. */
  ghost predicate RowPair(s0: seq<real>, s: seq<real>, n: nat, ip: nat, l: nat, lc: nat, f: nat -> real, g: nat -> real)
  {
    && |s| == |s0| == Prod(n, ip)
    && forall ik: nat, row: nat :: ik < n && row < ip ==>
         Vals(s, n, ik)(row) == if row == l then f(ik) else if row == lc then g(ik) else Vals(s0, n, ik)(row)
  }

  /** `f` for the first `upto` columns and `g` for the others. */
  function Upto(upto: nat, f: nat -> real, g: nat -> real): nat -> real { (c: nat) => if c < upto then f(c) else g(c) }

  lemma PairSame(s0: seq<real>, s: seq<real>, n: nat, ip: nat, l: nat, lc: nat, f: nat -> real, g: nat -> real,
                 f': nat -> real, g': nat -> real)
    requires RowPair(s0, s, n, ip, l, lc, f, g)
    requires forall c: nat :: c < n ==> f(c) == f'(c) && g(c) == g'(c)
    ensures RowPair(s0, s, n, ip, l, lc, f', g')
  {}

  lemma PairSet(s0: seq<real>, s: seq<real>, n: nat, ip: nat, l: nat, lc: nat, f: nat -> real, g: nat -> real, c: nat,
                f': nat -> real, g': nat -> real)
    requires RowPair(s0, s, n, ip, l, lc, f, g) && c < n && l < ip && lc < ip && (l == lc ==> f'(c) == g'(c))
    requires forall d: nat :: d < n && d != c ==> f(d) == f'(d) && g(d) == g'(d)
    ensures Idx(c, n, l) < |s| && Idx(c, n, lc) < |s|
    ensures RowPair(s0, s[Idx(c, n, l) := f'(c)][Idx(c, n, lc) := g'(c)], n, ip, l, lc, f', g')
  {
    hide Prod, Idx;
    IdxBound(c, n, l, ip);
    IdxBound(c, n, lc, ip);
    var a, b := Idx(c, n, l), Idx(c, n, lc);
    var s' := s[a := f'(c)][b := g'(c)];
    forall ik: nat, row: nat | ik < n && row < ip
      ensures Vals(s', n, ik)(row) == if row == l then f'(ik) else if row == lc then g'(ik) else Vals(s0, n, ik)(row)
    {
      IdxBound(ik, n, row, ip);
      if Idx(ik, n, row) == a { IdxInjective(ik, n, row, c, l); }
      if Idx(ik, n, row) == b { IdxInjective(ik, n, row, c, lc); }
      assert Vals(s, n, ik)(row) == if row == l then f(ik) else if row == lc then g(ik) else Vals(s0, n, ik)(row);
    }
  }

  function EvenFn(r: Complex, x: seq<real>, n: nat, l: nat,
                  t: nat): nat -> real { (ik: nat) => EvenMix(r, Vals(x, n, ik), l, t) }

  function OddFn(r: Complex, x: seq<real>, n: nat, ip: nat, l: nat,
                 t: nat): nat -> real { (ik: nat) => OddMix(r, Vals(x, n, ik), ip, l, t) }

  /** The first `c` products of the unrolled loops. */
  function EvenSome(ws: seq<Complex>, a: nat -> real, j: nat, c: nat): real
    requires c <= |ws|
  {
    if c == 0 then 0.0 else EvenSome(ws, a, j, c - 1) + Times(ws[c - 1].re, a(j + c - 1))
  }

  function OddSome(ws: seq<Complex>, a: nat -> real, ip: nat, j: nat, c: nat): real
    requires c <= |ws|
  {
    if c == 0 then 0.0 else OddSome(ws, a, ip, j, c - 1) + Times(ws[c - 1].im,
        a(if j + c - 1 <= ip then ip - (j + c - 1) else 0))
  }

  lemma {:induction false} SomeMore(r: Complex, ws: seq<Complex>, a: nat -> real, ip: nat, l: nat, j: nat, c: nat)
    requires c <= |ws| && j > 0 && forall u: nat :: u < |ws| ==> ws[u] == Pow(r, (j + u) * l)
    ensures EvenMix(r, a, l, j - 1 + c) == EvenMix(r, a, l, j - 1) + EvenSome(ws, a, j, c)
    ensures OddMix(r, a, ip, l, j - 1 + c) == OddMix(r, a, ip, l, j - 1) + OddSome(ws, a, ip, j, c)
    decreases c
  {
    hide Times, Pow;
    if c > 0 {
      SomeMore(r, ws, a, ip, l, j, c - 1);
      assert ws[c - 1] == Pow(r, (j + (c - 1)) * l);
    }
  }

  lemma PairsAdded(r: Complex, ws: seq<Complex>, x: seq<real>, n: nat, ip: nat, l: nat, j: nat, ik: nat)
    requires j > 0 && forall u: nat :: u < |ws| ==> ws[u] == Pow(r, (j + u) * l)
    ensures EvenFn(r, x, n, l, j - 1 + |ws|)(ik)
              == EvenFn(r, x, n, l, j - 1)(ik) + EvenSome(ws, Vals(x, n, ik), j, |ws|)
    ensures OddFn(r, x, n, ip, l, j - 1 + |ws|)(ik)
              == OddFn(r, x, n, ip, l, j - 1)(ik) + OddSome(ws, Vals(x, n, ik), ip, j, |ws|)
  {
    hide Pow, EvenMix, OddMix, EvenSome, OddSome;
    SomeMore(r, ws, Vals(x, n, ik), ip, l, j, |ws|);
  }

  lemma PairAt(s0: seq<real>, s: seq<real>, n: nat, ip: nat, l: nat, lc: nat, f: nat -> real, g: nat -> real, c: nat)
    requires RowPair(s0, s, n, ip, l, lc, f, g) && c < n && l < ip && lc < ip
    ensures Idx(c, n, l) < |s| && Idx(c, n, lc) < |s| && s[Idx(c, n, l)] == f(c) &&
            (l != lc ==> s[Idx(c, n, lc)] == g(c))
  {
    RowIndices(n, ip, c, l, lc);
    hide Prod, Idx;
    assert Vals(s, n, c)(l) == f(c) && (l != lc ==> Vals(s, n, c)(lc) == g(c));
  }

  /** A loop over the columns that adds `|ws|` pairs of rows at once. */
  method AddPairs(n: nat, ip: nat, l: nat, lc: nat, j: nat, ws: seq<Complex>, src: array<real>, dst: array<real>,
                  ghost s0: seq<real>, ghost r: Complex)
    requires src != dst && l < ip && lc < ip && l != lc && j > 0
    requires forall u: nat :: u < |ws| ==> ws[u] == Pow(r, (j + u) * l)
    requires RowPair(s0, dst[..], n, ip, l, lc, EvenFn(r, src[..], n, l, j - 1), OddFn(r, src[..], n, ip, l, j - 1))
    modifies dst
    ensures RowPair(s0, dst[..], n, ip, l, lc, EvenFn(r, src[..], n, l, j - 1 + |ws|),
                    OddFn(r, src[..], n, ip, l, j - 1 + |ws|))
  {
    ghost var x := src[..];
    ghost var f, g := EvenFn(r, x, n, l, j - 1), OddFn(r, x, n, ip, l, j - 1);
    ghost var f', g' := EvenFn(r, x, n, l, j - 1 + |ws|), OddFn(r, x, n, ip, l, j - 1 + |ws|);
    hide Prod, Idx, Times, Pow, EvenMix, OddMix, EvenSome, OddSome, RowPair, Vals, EvenFn, OddFn;
    PairSame(s0, dst[..], n, ip, l, lc, f, g, Upto(0, f', f), Upto(0, g', g));
    for ik := 0 to n
      invariant src[..] == x
      invariant RowPair(s0, dst[..], n, ip, l, lc, Upto(ik, f', f), Upto(ik, g', g))
    {
      RowIndices(n, ip, ik, l, lc);
      PairSet(s0, dst[..], n, ip, l, lc, Upto(ik, f', f), Upto(ik, g', g), ik, Upto(ik + 1, f', f),
              Upto(ik + 1, g', g));
      PairAt(s0, dst[..], n, ip, l, lc, Upto(ik, f', f), Upto(ik, g', g), ik);
      ghost var was := dst[..];
      var a := Vals(src[..], n, ik);
      dst[Idx(ik, n, l)] := dst[Idx(ik, n, l)] + EvenSome(ws, a, j, |ws|);
      dst[Idx(ik, n, lc)] := dst[Idx(ik, n, lc)] + OddSome(ws, a, ip, j, |ws|);
      PairsAdded(r, ws, x, n, ip, l, j, ik);
      assert dst[..] == was[Idx(ik, n, l) := f'(ik)][Idx(ik, n, lc) := g'(ik)];
    }
    PairSame(s0, dst[..], n, ip, l, lc, Upto(n, f', f), Upto(n, g', g), f', g');
  }

  lemma FirstMix(r: Complex, a: nat -> real, ip: nat, l: nat)
    requires ip >= 2
    ensures EvenMix(r, a, l, 2) == a(0) + Times(Pow(r, 1 * l).re, a(1)) + Times(Pow(r, 2 * l).re, a(2))
    ensures OddMix(r, a, ip, l, 2) == Times(Pow(r, 1 * l).im, a(ip - 1)) + Times(Pow(r, 2 * l).im, a(ip - 2))
  {
    hide Times, Pow;
    assert EvenMix(r, a, l, 1) == EvenMix(r, a, l, 0) + Times(Pow(r, 1 * l).re, a(1));
    assert OddMix(r, a, ip, l, 1) == OddMix(r, a, ip, l, 0) + Times(Pow(r, 1 * l).im, a(ip - 1));
  }

  /** The loop that starts rows `l` and `lc` with the first two pairs. */
  method StartPair(n: nat, ip: nat, l: nat, lc: nat, w1: Complex, w2: Complex, src: array<real>, dst: array<real>,
                   ghost r: Complex)
    requires src != dst && l < ip && lc < ip && l != lc && ip >= 5 && dst.Length == Prod(n, ip)
    requires w1 == Pow(r, 1 * l) && w2 == Pow(r, 2 * l)
    modifies dst
    ensures RowPair(old(dst[..]), dst[..], n, ip, l, lc, EvenFn(r, src[..], n, l, 2), OddFn(r, src[..], n, ip, l, 2))
  {
    ghost var x, s0 := src[..], dst[..];
    ghost var f, g := (ik: nat) => Vals(s0, n, ik)(l), (ik: nat) => Vals(s0, n, ik)(lc);
    ghost var f', g' := EvenFn(r, x, n, l, 2), OddFn(r, x, n, ip, l, 2);
    hide Prod, Idx, Times, Pow, EvenMix, OddMix;
    PairSame(s0, dst[..], n, ip, l, lc, f, g, Upto(0, f', f), Upto(0, g', g));
    for ik := 0 to n
      invariant src[..] == x
      invariant RowPair(s0, dst[..], n, ip, l, lc, Upto(ik, f', f), Upto(ik, g', g))
    {
      RowIndices(n, ip, ik, l, lc);
      PairSet(s0, dst[..], n, ip, l, lc, Upto(ik, f', f), Upto(ik, g', g), ik, Upto(ik + 1, f', f),
              Upto(ik + 1, g', g));
      ghost var was := dst[..];
      var a := Vals(src[..], n, ik);
      dst[Idx(ik, n, l)] := a(0) + Times(w1.re, a(1)) + Times(w2.re, a(2));
      dst[Idx(ik, n, lc)] := Times(w1.im, a(ip - 1)) + Times(w2.im, a(ip - 2));
      FirstMix(r, a, ip, l);
      assert dst[..] == was[Idx(ik, n, l) := f'(ik)][Idx(ik, n, lc) := g'(ik)];
    }
    PairSame(s0, dst[..], n, ip, l, lc, Upto(n, f', f), Upto(n, g', g), f', g');
  }

  /** The next table entry, by its stepped index. */
  method NextRoot(iang: nat, j: nat, l: nat, ip: nat, roots: seq<Complex>, ghost r: Complex)
    returns (next: nat, z: Complex)
    requires Prime(ip) && 0 < l <= ip / 2 && 0 < j <= ip / 2 && iang == ((j - 1) * l) % ip && PowerTable(roots, r, ip)
    ensures next == (j * l) % ip && z == Pow(r, j * l)
  {
    hide Pow, Prime;
    next := NextIwal(iang, j, l, ip);
    TableAt(roots, r, ip, j * l);
    z := roots[next];
  }

  /** Rows `l` and `lc` from all the rows: four pairs at a time, then two, then one. */
  method MixPair(n: nat, ip: nat, l: nat, lc: nat, roots: seq<Complex>, src: array<real>, dst: array<real>,
                 ghost r: Complex)
    requires src != dst && Prime(ip) && 5 <= ip && ip % 2 == 1 && 0 < l <= ip / 2 && lc == ip - l &&
             dst.Length == Prod(n, ip)
    requires PowerTable(roots, r, ip)
    modifies dst
    ensures RowPair(old(dst[..]), dst[..], n, ip, l, lc, EvenFn(r, src[..], n, l, ip / 2),
                    OddFn(r, src[..], n, ip, l, ip / 2))
  {
    hide Pow, Prime, RowPair, PowerTable, EvenFn, OddFn, Prod;
    ghost var s0, x := dst[..], src[..];
    var ipph := (ip + 1) / 2;
    TableAt(roots, r, ip, l);
    TableAt(roots, r, ip, 2 * l);
    TableSize(roots, r, ip);
    SmallMod(l, ip);
    SmallMod(2 * l, ip);
    assert 1 * l == l;
    StartPair(n, ip, l, lc, roots[l], roots[2 * l], src, dst, r);
    var iang, j := 2 * l, 3;
    while j + 3 < ipph
      invariant 3 <= j <= ipph && iang == ((j - 1) * l) % ip && src[..] == x
      invariant RowPair(s0, dst[..], n, ip, l, lc, EvenFn(r, x, n, l, j - 1), OddFn(r, x, n, ip, l, j - 1))
    {
      var z1, z2, z3, z4;
      iang, z1 := NextRoot(iang, j, l, ip, roots, r);
      iang, z2 := NextRoot(iang, j + 1, l, ip, roots, r);
      iang, z3 := NextRoot(iang, j + 2, l, ip, roots, r);
      iang, z4 := NextRoot(iang, j + 3, l, ip, roots, r);
      AddPairs(n, ip, l, lc, j, [z1, z2, z3, z4], src, dst, s0, r);
      j := j + 4;
    }
    while j + 1 < ipph
      invariant 3 <= j <= ipph && iang == ((j - 1) * l) % ip && src[..] == x
      invariant RowPair(s0, dst[..], n, ip, l, lc, EvenFn(r, x, n, l, j - 1), OddFn(r, x, n, ip, l, j - 1))
    {
      var z1, z2;
      iang, z1 := NextRoot(iang, j, l, ip, roots, r);
      iang, z2 := NextRoot(iang, j + 1, l, ip, roots, r);
      AddPairs(n, ip, l, lc, j, [z1, z2], src, dst, s0, r);
      j := j + 2;
    }
    while j < ipph
      invariant 3 <= j <= ipph && iang == ((j - 1) * l) % ip && src[..] == x
      invariant RowPair(s0, dst[..], n, ip, l, lc, EvenFn(r, x, n, l, j - 1), OddFn(r, x, n, ip, l, j - 1))
    {
      var z1;
      iang, z1 := NextRoot(iang, j, l, ip, roots, r);
      AddPairs(n, ip, l, lc, j, [z1], src, dst, s0, r);
      j := j + 1;
    }
  }

  /** Every pair of rows below `l` is mixed. */
  ghost predicate MixedBelow(s: seq<real>, x: seq<real>, n: nat, ip: nat, l: nat, r: Complex) {
    && |s| == Prod(n, ip)
    && forall ik: nat, m: nat :: ik < n && 0 < m < l && m <= ip / 2 ==>
         Vals(s, n, ik)(m) == EvenMix(r, Vals(x, n, ik), m, ip / 2) &&
             Vals(s, n, ik)(ip - m) == OddMix(r, Vals(x, n, ik), ip, m, ip / 2)
  }

  lemma MixedMore(s0: seq<real>, s: seq<real>, x: seq<real>, n: nat, ip: nat, l: nat, r: Complex)
    requires MixedBelow(s0, x, n, ip, l, r) && 0 < l <= ip / 2 && ip % 2 == 1
    requires RowPair(s0, s, n, ip, l, ip - l, EvenFn(r, x, n, l, ip / 2), OddFn(r, x, n, ip, l, ip / 2))
    ensures MixedBelow(s, x, n, ip, l + 1, r)
  {
    hide Prod, Vals, EvenMix, OddMix;
    forall ik: nat, m: nat | ik < n && 0 < m < l + 1 && m <= ip / 2
      ensures Vals(s, n, ik)(m) == EvenMix(r, Vals(x, n, ik), m, ip / 2) &&
              Vals(s, n, ik)(ip - m) == OddMix(r, Vals(x, n, ik), ip, m, ip / 2)
    {
      assert Vals(s, n, ik)(m) == if m == l then EvenFn(r, x, n, l, ip / 2)(ik) else Vals(s0, n, ik)(m);
    }
  }

  /** The mixing loops of radfg and radbg. */
  method MixRealRows(n: nat, ip: nat, roots: seq<Complex>, src: array<real>, dst: array<real>, ghost r: Complex)
    requires src != dst && Prime(ip) && 5 <= ip && ip % 2 == 1 && dst.Length == Prod(n, ip) && PowerTable(roots, r, ip)
    modifies dst
    ensures MixedBelow(dst[..], src[..], n, ip, ip / 2 + 1, r)
  {
    hide Pow, Prime, PowerTable, Prod, RowPair, EvenFn, OddFn, Vals;
    ghost var x := src[..];
    for l := 1 to (ip + 1) / 2
      invariant src[..] == x && MixedBelow(dst[..], x, n, ip, l, r)
    {
      ghost var was := dst[..];
      MixPair(n, ip, l, ip - l, roots, src, dst, r);
      MixedMore(was, dst[..], x, n, ip, l, r);
    }
  }

  // ---------- the row of plain sums ----------

  function PlainFn(x: seq<real>, n: nat, t: nat): nat -> real { (ik: nat) => PlainMix(Vals(x, n, ik), t) }

  /** Row 0 of `dst` becomes row 0 of `src`. */
  method CopyRowZero(n: nat, ip: nat, src: array<real>, dst: array<real>)
    requires src != dst && ip > 0 && dst.Length == src.Length == Prod(n, ip)
    modifies dst
    ensures RowPair(old(dst[..]), dst[..], n, ip, 0, 0, PlainFn(src[..], n, 0), PlainFn(src[..], n, 0))
  {
    ghost var x, s0 := src[..], dst[..];
    ghost var f, f' := (ik: nat) => Vals(s0, n, ik)(0), PlainFn(x, n, 0);
    hide Prod, Idx;
    PairSame(s0, dst[..], n, ip, 0, 0, f, f, Upto(0, f', f), Upto(0, f', f));
    hide RowPair;
    for ik := 0 to n
      invariant src[..] == x
      invariant RowPair(s0, dst[..], n, ip, 0, 0, Upto(ik, f', f), Upto(ik, f', f))
    {
      IdxBound(ik, n, 0, ip);
      PairSet(s0, dst[..], n, ip, 0, 0, Upto(ik, f', f), Upto(ik, f', f), ik, Upto(ik + 1, f', f), Upto(ik + 1, f', f));
      ghost var was := dst[..];
      dst[Idx(ik, n, 0)] := src[Idx(ik, n, 0)];
      assert dst[..] == was[Idx(ik, n, 0) := f'(ik)][Idx(ik, n, 0) := f'(ik)];
    }
    PairSame(s0, dst[..], n, ip, 0, 0, Upto(n, f', f), Upto(n, f', f), f', f');
  }

  /** One more row is added to row 0. */
  method AddToRowZero(n: nat, ip: nat, j: nat, src: array<real>, dst: array<real>, ghost x: seq<real>,
                      ghost s0: seq<real>)
    requires 0 < j < ip && src.Length == dst.Length == Prod(n, ip)
    requires forall ik: nat, row: nat :: ik < n && 0 < row < ip ==> Vals(src[..], n, ik)(row) == Vals(x, n, ik)(row)
    requires src == dst ==> s0 == x
    requires RowPair(s0, dst[..], n, ip, 0, 0, PlainFn(x, n, j - 1), PlainFn(x, n, j - 1))
    modifies dst
    ensures RowPair(s0, dst[..], n, ip, 0, 0, PlainFn(x, n, j), PlainFn(x, n, j))
  {
    ghost var f, f' := PlainFn(x, n, j - 1), PlainFn(x, n, j);
    hide Prod, Idx;
    PairSame(s0, dst[..], n, ip, 0, 0, f, f, Upto(0, f', f), Upto(0, f', f));
    for ik := 0 to n
      invariant src != dst ==> src[..] == old(src[..])
      invariant RowPair(s0, dst[..], n, ip, 0, 0, Upto(ik, f', f), Upto(ik, f', f))
    {
      IdxBound(ik, n, 0, ip);
      IdxBound(ik, n, j, ip);
      PairSet(s0, dst[..], n, ip, 0, 0, Upto(ik, f', f), Upto(ik, f', f), ik, Upto(ik + 1, f', f), Upto(ik + 1, f', f));
      PairAt(s0, dst[..], n, ip, 0, 0, Upto(ik, f', f), Upto(ik, f', f), ik);
      assert Vals(src[..], n, ik)(j) == Vals(x, n, ik)(j);
      ghost var was := dst[..];
      dst[Idx(ik, n, 0)] := dst[Idx(ik, n, 0)] + src[Idx(ik, n, j)];
      assert dst[..] == was[Idx(ik, n, 0) := f'(ik)][Idx(ik, n, 0) := f'(ik)];
    }
    PairSame(s0, dst[..], n, ip, 0, 0, Upto(n, f', f), Upto(n, f', f), f', f');
  }

  /** radfg's row 0: a copy, to which the sums are added. */
  method SumRows(n: nat, ip: nat, src: array<real>, dst: array<real>)
    requires src != dst && ip > 0 && src.Length == dst.Length == Prod(n, ip)
    modifies dst
    ensures RowPair(old(dst[..]), dst[..], n, ip, 0, 0, PlainFn(src[..], n, (ip - 1) / 2),
                    PlainFn(src[..], n, (ip - 1) / 2))
  {
    ghost var x, s0 := src[..], dst[..];
    CopyRowZero(n, ip, src, dst);
    hide RowPair, PlainFn;
    for j := 1 to (ip - 1) / 2 + 1
      invariant src[..] == x && RowPair(s0, dst[..], n, ip, 0, 0, PlainFn(x, n, j - 1), PlainFn(x, n, j - 1))
    {
      AddToRowZero(n, ip, j, src, dst, x, s0);
    }
  }

  /** radbg's row 0: the sums are added to what is there. */
  method SumRowsInPlace(n: nat, ip: nat, buf: array<real>)
    requires ip > 0 && buf.Length == Prod(n, ip)
    modifies buf
    ensures RowPair(old(buf[..]), buf[..], n, ip, 0, 0, PlainFn(old(buf[..]), n, (ip - 1) / 2),
                    PlainFn(old(buf[..]), n, (ip - 1) / 2))
  {
    ghost var x := buf[..];
    assert RowPair(x, buf[..], n, ip, 0, 0, PlainFn(x, n, 0), PlainFn(x, n, 0));
    for j := 1 to (ip - 1) / 2 + 1
      invariant RowPair(x, buf[..], n, ip, 0, 0, PlainFn(x, n, j - 1), PlainFn(x, n, j - 1))
    {
      hide PlainFn, Prod;
      AddToRowZero(n, ip, j, buf, buf, x, x);
    }
  }
}
