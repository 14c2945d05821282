/** The generic pass for a prime radix above 11, which works inside both buffers. */
module PassG {
  import opened Basics
  import opened Complexes
  import opened Sums
  import opened Dft
  import opened RadixPass
  import opened Butterflies
  import opened Passes
  import opened Primes
  import opened Division

  /** CX2 and CH2: row `row` of column `ik` when a buffer is read as rows of `n` columns. */
  function Entry(s: seq<Complex>, n: nat, ik: nat, row: nat): Complex { At(s, Idx(ik, n, row)) }

  /** From `s0` to `s`, rows `l` and `lc` became `f` and `g`, and no other row changed. */
  ghost predicate RowsSet(s0: seq<Complex>, s: seq<Complex>, n: nat, ip: nat, l: nat, lc: nat,
                          f: nat -> Complex, g: nat -> Complex) {
    && |s| == |s0| == Prod(n, ip)
    && forall ik: nat, row: nat :: ik < n && row < ip ==>
      Entry(s, n, ik, row) == if row == l then f(ik) else if row == lc then g(ik) else Entry(s0, n, ik, row)
  }

  function RowOfEntries(s: seq<Complex>, n: nat, row: nat): nat -> Complex { (ik: nat) => Entry(s, n, ik, row) }

  /** `f` for the first `upto` columns and `g` for the others: a loop over columns under way. */
  function Mix(upto: nat, f: nat -> Complex, g: nat -> Complex): nat -> Complex {
    (c: nat) => if c < upto then f(c) else g(c)
  }

  lemma RowsUntouched(s: seq<Complex>, n: nat, ip: nat, l: nat, lc: nat)
    requires |s| == Prod(n, ip)
    ensures RowsSet(s, s, n, ip, l, lc, RowOfEntries(s, n, l), RowOfEntries(s, n, lc))
  {}

  lemma RowsCong(s0: seq<Complex>, s: seq<Complex>, n: nat, ip: nat, l: nat, lc: nat,
                 f: nat -> Complex, g: nat -> Complex, f': nat -> Complex, g': nat -> Complex)
    requires RowsSet(s0, s, n, ip, l, lc, f, g)
    requires forall c: nat :: c < n ==> f(c) == f'(c) && g(c) == g'(c)
    ensures RowsSet(s0, s, n, ip, l, lc, f', g')
  {}

  lemma ColumnSet(s0: seq<Complex>, s: seq<Complex>, n: nat, ip: nat, l: nat, lc: nat,
                  f: nat -> Complex, g: nat -> Complex, c: nat, f': nat -> Complex, g': nat -> Complex)
    requires RowsSet(s0, s, n, ip, l, lc, f, g)
    requires c < n && l < ip && lc < ip
    requires l == lc ==> f'(c) == g'(c)
    requires forall d: nat :: d < n && d != c ==> f(d) == f'(d) && g(d) == g'(d)
    ensures Idx(c, n, l) < |s| && Idx(c, n, lc) < |s|
    ensures RowsSet(s0, s[Idx(c, n, l) := f'(c)][Idx(c, n, lc) := g'(c)], n, ip, l, lc, f', g')
  {
    hide Prod, Idx;
    IdxBound(c, n, l, ip);
    IdxBound(c, n, lc, ip);
    var a, b := Idx(c, n, l), Idx(c, n, lc);
    var s' := s[a := f'(c)][b := g'(c)];
    forall ik: nat, row: nat | ik < n && row < ip
      ensures Entry(s', n, ik, row)
           == if row == l then f'(ik) else if row == lc then g'(ik) else Entry(s0, n, ik, row)
    {
      IdxBound(ik, n, row, ip);
      if Idx(ik, n, row) == a {
        IdxInjective(ik, n, row, c, l);
      }
      if Idx(ik, n, row) == b {
        IdxInjective(ik, n, row, c, lc);
      }
      assert Entry(s, n, ik, row) == if row == l then f(ik) else if row == lc then g(ik) else Entry(s0, n, ik, row);
    }
  }

  /** Rows below `lo` and their mirror rows hold `f`, those between still hold `g`. */
  ghost predicate RowsAre(s: seq<Complex>, n: nat, ip: nat, lo: nat, f: (nat, nat) -> Complex, g: (nat, nat) -> Complex)
  {
    && |s| == Prod(n, ip)
    && forall ik: nat, row: nat :: ik < n && row < ip ==>
      Entry(s, n, ik, row) == if row < lo || row > ip - lo then f(ik, row) else g(ik, row)
  }

  lemma RowsAreStep(s0: seq<Complex>, s: seq<Complex>, n: nat, ip: nat, j: nat, f: (nat, nat) -> Complex,
                    g: (nat, nat) -> Complex, u: nat -> Complex, v: nat -> Complex)
    requires RowsAre(s0, n, ip, j, f, g) && 0 < j < ip - j
    requires RowsSet(s0, s, n, ip, j, ip - j, u, v)
    requires forall c: nat :: c < n ==> u(c) == f(c, j) && v(c) == f(c, ip - j)
    ensures RowsAre(s, n, ip, j + 1, f, g)
  {
    hide Entry, Prod;
  }

  // ---------- the values each phase leaves behind ----------

  /** The column of inputs at flat position `ik`. */
  function Col(x: seq<Complex>, ido: nat, ip: nat, ik: nat): (col: seq<Complex>)
    requires ido > 0
    ensures |col| == ip
  {
    Column(x, ido, ip, ik % ido, ik / ido)
  }

  /** Sums in the first half of the rows, differences in the mirrored half. */
  function Paired(col: seq<Complex>, row: nat): Complex {
    if row == 0 then At(col, 0)
    else if row <= |col| / 2 then SumOf(col, row - 1)
    else if row < |col| then DiffOf(col, |col| - row - 1)
    else ZERO
  }

  function EvenUpTo(col: seq<Complex>, v: Complex, l: nat, t: nat): Complex {
    Add(At(col, 0), Sum(t, EvenTerm(col, v, l)))
  }

  function OddUpTo(col: seq<Complex>, v: Complex, l: nat, t: nat): Complex {
    Sum(t, OddTerm(col, v, l))
  }

  function EvenRow(cols: nat -> seq<Complex>, v: Complex, l: nat, t: nat): nat -> Complex {
    (ik: nat) => EvenUpTo(cols(ik), v, l, t)
  }

  function OddRow(cols: nat -> seq<Complex>, v: Complex, l: nat, t: nat): nat -> Complex {
    (ik: nat) => OddUpTo(cols(ik), v, l, t)
  }

  function PairedRow(cols: nat -> seq<Complex>, row: nat): nat -> Complex {
    (ik: nat) => Paired(cols(ik), row)
  }

  /** The buffer `ch` after the pairing phase. */
  ghost predicate PairedRows(ch: seq<Complex>, n: nat, ip: nat, cols: nat -> seq<Complex>) {
    && |ch| == Prod(n, ip)
    && (forall ik: nat :: ik < n ==> |cols(ik)| == ip)
    && forall ik: nat, row: nat :: ik < n && row < ip ==> Entry(ch, n, ik, row) == Paired(cols(ik), row)
  }

  // ---------- mixing the paired rows ----------

  /** The loop that adds one more pair of rows, with `xwal` as its coefficient. */
  method Accumulate(n: nat, ip: nat, l: nat, lc: nat, j: nat, jc: nat, xwal: Complex, cc: array<Complex>,
                    ch: array<Complex>, ghost s0: seq<Complex>, ghost cols: nat -> seq<Complex>, ghost v: Complex)
    requires cc != ch && PairedRows(ch[..], n, ip, cols)
    requires 0 < l < ip && 0 < lc < ip && l != lc && 0 < j <= ip / 2 && jc == ip - j && ip % 2 == 1
    requires xwal == Pow(v, j * l)
    requires RowsSet(s0, cc[..], n, ip, l, lc, EvenRow(cols, v, l, j - 1), OddRow(cols, v, l, j - 1))
    modifies cc
    ensures RowsSet(s0, cc[..], n, ip, l, lc, EvenRow(cols, v, l, j), OddRow(cols, v, l, j))
  {
    hide Prod, Idx, Add, Sub, Scale, Turn, Pow, SumOf, DiffOf;
    ghost var f, g := EvenRow(cols, v, l, j - 1), OddRow(cols, v, l, j - 1);
    ghost var f', g' := EvenRow(cols, v, l, j), OddRow(cols, v, l, j);
    RowsCong(s0, cc[..], n, ip, l, lc, f, g, Mix(0, f', f), Mix(0, g', g));
    for ik := 0 to n
      invariant ch[..] == old(ch[..])
      invariant RowsSet(s0, cc[..], n, ip, l, lc, Mix(ik, f', f), Mix(ik, g', g))
    {
      IdxBound(ik, n, l, ip);
      IdxBound(ik, n, lc, ip);
      IdxBound(ik, n, j, ip);
      IdxBound(ik, n, jc, ip);
      assert Entry(cc[..], n, ik, l) == f(ik) && Entry(cc[..], n, ik, lc) == g(ik);
      assert Entry(ch[..], n, ik, j) == SumOf(cols(ik), j - 1) && Entry(ch[..], n, ik, jc) == DiffOf(cols(ik), j - 1);
      ColumnSet(s0, cc[..], n, ip, l, lc, Mix(ik, f', f), Mix(ik, g', g), ik, Mix(ik + 1, f', f), Mix(ik + 1, g', g));
      ghost var was := cc[..];
      cc[Idx(ik, n, l)] := Add(cc[Idx(ik, n, l)], Scale(xwal.re, ch[Idx(ik, n, j)]));
      if Idx(ik, n, l) == Idx(ik, n, lc) { IdxInjective(ik, n, l, ik, lc); }
      cc[Idx(ik, n, lc)] := Add(cc[Idx(ik, n, lc)], Turn(Scale(xwal.im, ch[Idx(ik, n, jc)])));
      OneMore(cols(ik), v, l, j, j * l);
      assert cc[..] == was[Idx(ik, n, l) := f'(ik)][Idx(ik, n, lc) := g'(ik)];
    }
    RowsCong(s0, cc[..], n, ip, l, lc, Mix(n, f', f), Mix(n, g', g), f', g');
  }

  lemma OneMore(col: seq<Complex>, v: Complex, l: nat, j: nat, e: nat)
    requires j > 0 && e == j * l
    ensures EvenUpTo(col, v, l, j) == Add(EvenUpTo(col, v, l, j - 1), Scale(Pow(v, e).re, SumOf(col, j - 1)))
    ensures OddUpTo(col, v, l, j) == Add(OddUpTo(col, v, l, j - 1), Turn(Scale(Pow(v, e).im, DiffOf(col, j - 1))))
  {
    hide Add, Scale, Turn, Pow, SumOf, DiffOf;
    AddAssoc(At(col, 0), Sum(j - 1, EvenTerm(col, v, l)), EvenTerm(col, v, l)(j - 1));
  }

  lemma TwoMore(col: seq<Complex>, v: Complex, l: nat, j: nat, e1: nat, e2: nat)
    requires j > 0 && e1 == j * l && e2 == (j + 1) * l
    ensures EvenUpTo(col, v, l, j + 1)
         == Add(EvenUpTo(col, v, l, j - 1),
                Add(Scale(Pow(v, e1).re, SumOf(col, j - 1)), Scale(Pow(v, e2).re, SumOf(col, j))))
    ensures OddUpTo(col, v, l, j + 1)
         == Add(OddUpTo(col, v, l, j - 1),
                Add(Turn(Scale(Pow(v, e1).im, DiffOf(col, j - 1))), Turn(Scale(Pow(v, e2).im, DiffOf(col, j)))))
  {
    hide Add, Scale, Turn, Pow, SumOf, DiffOf, EvenUpTo, OddUpTo;
    OneMore(col, v, l, j, e1);
    OneMore(col, v, l, j + 1, e2);
    AddAssoc(EvenUpTo(col, v, l, j - 1), Scale(Pow(v, e1).re, SumOf(col, j - 1)), Scale(Pow(v, e2).re, SumOf(col, j)));
    AddAssoc(OddUpTo(col, v, l, j - 1),
             Turn(Scale(Pow(v, e1).im, DiffOf(col, j - 1))), Turn(Scale(Pow(v, e2).im, DiffOf(col, j))));
  }

  lemma FirstTwo(col: seq<Complex>, v: Complex, l: nat)
    ensures EvenUpTo(col, v, l, 2)
         == Add(Add(At(col, 0), Scale(Pow(v, 1 * l).re, SumOf(col, 0))), Scale(Pow(v, 2 * l).re, SumOf(col, 1)))
    ensures OddUpTo(col, v, l, 2)
         == Add(Turn(Scale(Pow(v, 1 * l).im, DiffOf(col, 0))), Turn(Scale(Pow(v, 2 * l).im, DiffOf(col, 1))))
  {
    hide Add, Scale, Turn, Pow, SumOf, DiffOf;
    OneMore(col, v, l, 1, 1 * l);
    OneMore(col, v, l, 2, 2 * l);
    AddZero(At(col, 0));
    AddZero(Turn(Scale(Pow(v, 1 * l).im, DiffOf(col, 0))));
  }

  /** The unrolled loop that adds two pairs of rows at a time. */
  method AccumulateTwo(n: nat, ip: nat, l: nat, lc: nat, j: nat, jc: nat, xwal: Complex, xwal2: Complex,
                       cc: array<Complex>, ch: array<Complex>,
                       ghost s0: seq<Complex>, ghost cols: nat -> seq<Complex>, ghost v: Complex)
    requires cc != ch && PairedRows(ch[..], n, ip, cols)
    requires 0 < l < ip && 0 < lc < ip && l != lc && 0 < j < ip / 2 && jc == ip - j && ip % 2 == 1
    requires xwal == Pow(v, j * l) && xwal2 == Pow(v, (j + 1) * l)
    requires RowsSet(s0, cc[..], n, ip, l, lc, EvenRow(cols, v, l, j - 1), OddRow(cols, v, l, j - 1))
    modifies cc
    ensures RowsSet(s0, cc[..], n, ip, l, lc, EvenRow(cols, v, l, j + 1), OddRow(cols, v, l, j + 1))
  {
    hide Prod, Idx, Add, Sub, Scale, Turn, Pow, SumOf, DiffOf, EvenUpTo, OddUpTo;
    ghost var f, g := EvenRow(cols, v, l, j - 1), OddRow(cols, v, l, j - 1);
    ghost var f', g' := EvenRow(cols, v, l, j + 1), OddRow(cols, v, l, j + 1);
    RowsCong(s0, cc[..], n, ip, l, lc, f, g, Mix(0, f', f), Mix(0, g', g));
    for ik := 0 to n
      invariant ch[..] == old(ch[..])
      invariant RowsSet(s0, cc[..], n, ip, l, lc, Mix(ik, f', f), Mix(ik, g', g))
    {
      RowIndices(n, ip, ik, l, lc);
      RowIndices(n, ip, ik, j, jc);
      RowIndices(n, ip, ik, j + 1, jc - 1);
      assert Entry(cc[..], n, ik, l) == f(ik) && Entry(cc[..], n, ik, lc) == g(ik);
      assert Entry(ch[..], n, ik, j) == SumOf(cols(ik), j - 1) && Entry(ch[..], n, ik, jc) == DiffOf(cols(ik), j - 1);
      assert Entry(ch[..], n, ik, j + 1) == SumOf(cols(ik), j) && Entry(ch[..], n, ik, jc - 1) == DiffOf(cols(ik), j);
      ColumnSet(s0, cc[..], n, ip, l, lc, Mix(ik, f', f), Mix(ik, g', g), ik, Mix(ik + 1, f', f), Mix(ik + 1, g', g));
      ghost var was := cc[..];
      cc[Idx(ik, n, l)] := Add(cc[Idx(ik, n, l)],
                               Add(Scale(xwal.re, ch[Idx(ik, n, j)]), Scale(xwal2.re, ch[Idx(ik, n, j + 1)])));
      cc[Idx(ik, n, lc)] := Add(cc[Idx(ik, n, lc)],
                                Add(Turn(Scale(xwal.im, ch[Idx(ik, n, jc)])),
                                    Turn(Scale(xwal2.im, ch[Idx(ik, n, jc - 1)]))));
      TwoMore(cols(ik), v, l, j, j * l, (j + 1) * l);
      assert cc[..] == was[Idx(ik, n, l) := f'(ik)][Idx(ik, n, lc) := g'(ik)];
    }
    RowsCong(s0, cc[..], n, ip, l, lc, Mix(n, f', f), Mix(n, g', g), f', g');
  }

  lemma RowIndices(n: nat, ip: nat, ik: nat, l: nat, lc: nat)
    requires ik < n && l < ip && lc < ip
    ensures Idx(ik, n, l) < Prod(n, ip) && Idx(ik, n, lc) < Prod(n, ip)
    ensures Idx(ik, n, l) == Idx(ik, n, lc) ==> l == lc
  {
    hide Idx, Prod;
    IdxBound(ik, n, l, ip);
    IdxBound(ik, n, lc, ip);
    if Idx(ik, n, l) == Idx(ik, n, lc) {
      IdxInjective(ik, n, l, ik, lc);
    }
  }

  /** The loop that starts rows `l` and `lc` with the first two pairs. */
  method StartRow(n: nat, ip: nat, l: nat, lc: nat, wal: seq<Complex>, cc: array<Complex>, ch: array<Complex>,
                  ghost cols: nat -> seq<Complex>, ghost v: Complex)
    requires cc != ch && PairedRows(ch[..], n, ip, cols) && cc.Length == Prod(n, ip)
    requires 0 < l <= ip / 2 && lc == ip - l && 5 <= ip && ip % 2 == 1
    requires |wal| == ip && wal[l] == Pow(v, 1 * l) && wal[2 * l] == Pow(v, 2 * l)
    modifies cc
    ensures RowsSet(old(cc[..]), cc[..], n, ip, l, lc, EvenRow(cols, v, l, 2), OddRow(cols, v, l, 2))
  {
    hide Prod, Idx, Add, Sub, Scale, Turn, Pow, SumOf, DiffOf, EvenUpTo, OddUpTo;
    ghost var s0 := cc[..];
    ghost var f, g := RowOfEntries(s0, n, l), RowOfEntries(s0, n, lc);
    ghost var f', g' := EvenRow(cols, v, l, 2), OddRow(cols, v, l, 2);
    RowsUntouched(s0, n, ip, l, lc);
    RowsCong(s0, s0, n, ip, l, lc, f, g, Mix(0, f', f), Mix(0, g', g));
    for ik := 0 to n
      invariant ch[..] == old(ch[..])
      invariant RowsSet(s0, cc[..], n, ip, l, lc, Mix(ik, f', f), Mix(ik, g', g))
    {
      RowIndices(n, ip, ik, l, lc);
      RowIndices(n, ip, ik, 1, ip - 1);
      RowIndices(n, ip, ik, 2, ip - 2);
      RowIndices(n, ip, ik, 0, 0);
      assert Entry(ch[..], n, ik, 0) == At(cols(ik), 0);
      assert Entry(ch[..], n, ik, 1) == SumOf(cols(ik), 0) && Entry(ch[..], n, ik, ip - 1) == DiffOf(cols(ik), 0);
      assert Entry(ch[..], n, ik, 2) == SumOf(cols(ik), 1) && Entry(ch[..], n, ik, ip - 2) == DiffOf(cols(ik), 1);
      ColumnSet(s0, cc[..], n, ip, l, lc, Mix(ik, f', f), Mix(ik, g', g), ik, Mix(ik + 1, f', f), Mix(ik + 1, g', g));
      ghost var was := cc[..];
      cc[Idx(ik, n, l)] := Add(Add(ch[Idx(ik, n, 0)], Scale(wal[l].re, ch[Idx(ik, n, 1)])),
                               Scale(wal[2 * l].re, ch[Idx(ik, n, 2)]));
      cc[Idx(ik, n, lc)] := Add(Turn(Scale(wal[l].im, ch[Idx(ik, n, ip - 1)])),
                                Turn(Scale(wal[2 * l].im, ch[Idx(ik, n, ip - 2)])));
      FirstTwo(cols(ik), v, l);
      assert cc[..] == was[Idx(ik, n, l) := f'(ik)][Idx(ik, n, lc) := g'(ik)];
    }
    RowsCong(s0, cc[..], n, ip, l, lc, Mix(n, f', f), Mix(n, g', g), f', g');
  }

  /** `iwal += l; if (iwal > ip) iwal -= ip;` never meets `ip` itself, because `ip` is prime. */
  method NextIwal(iwal: nat, j: nat, l: nat, ip: nat) returns (next: nat)
    requires Prime(ip) && 0 < l <= ip / 2 && 0 < j <= ip / 2
    requires iwal == ((j - 1) * l) % ip
    ensures 0 < next < ip && next == (j * l) % ip
  {
    next := iwal + l;
    NoSmallProduct(ip, j, l);
    var q := ((j - 1) * l) / ip;
    assert j * l == (j - 1) * l + l;
    assert (j - 1) * l == ip * q + iwal;
    if next > ip {
      next := next - ip;
      assert ip * (q + 1) == ip * q + ip;
      ModUnique(j * l, ip, q + 1, next);
    } else if next == ip {
      assert ip * (q + 1) == ip * q + ip;
      ModUnique(j * l, ip, q + 1, 0);
    } else {
      ModUnique(j * l, ip, q, next);
    }
  }

  ghost predicate PowerTable(wal: seq<Complex>, v: Complex, ip: nat) {
    && |wal| == ip && Pow(v, ip) == ONE
    && forall m: nat :: m < ip ==> At(wal, m) == Pow(v, m)
  }

  lemma TableAt(wal: seq<Complex>, v: Complex, ip: nat, m: nat)
    requires PowerTable(wal, v, ip) && ip > 0
    ensures wal[m % ip] == Pow(v, m)
  {
    hide Pow;
    PowMod(v, ip, m % ip, m / ip);
    assert At(wal, m % ip) == Pow(v, m % ip);
  }

  /** One turn of the mixing loop: output rows `l` and `lc` from all the paired rows. */
  method MixRow(n: nat, ip: nat, l: nat, lc: nat, wal: seq<Complex>, cc: array<Complex>, ch: array<Complex>,
                ghost cols: nat -> seq<Complex>, ghost v: Complex)
    requires cc != ch && PairedRows(ch[..], n, ip, cols) && cc.Length == Prod(n, ip)
    requires Prime(ip) && 5 <= ip && ip % 2 == 1 && 0 < l <= ip / 2 && lc == ip - l
    requires PowerTable(wal, v, ip)
    modifies cc
    ensures RowsSet(old(cc[..]), cc[..], n, ip, l, lc, EvenRow(cols, v, l, ip / 2), OddRow(cols, v, l, ip / 2))
  {
    hide Pow, Prime, RowsSet, PairedRows, PowerTable, EvenRow, OddRow, Prod;
    ghost var s0 := cc[..];
    var ipph := (ip + 1) / 2;
    TableAt(wal, v, ip, l);
    TableAt(wal, v, ip, 2 * l);
    assert 1 * l == l && |wal| == ip by { TableSize(wal, v, ip); }
    SmallMod(l, ip);
    SmallMod(2 * l, ip);
    StartRow(n, ip, l, lc, wal, cc, ch, cols, v);
    var iwal := 2 * l;
    var j, jc := 3, ip - 3;
    while j < ipph - 1
      invariant 3 <= j <= ipph && jc == ip - j
      invariant iwal == ((j - 1) * l) % ip
      invariant ch[..] == old(ch[..])
      invariant RowsSet(s0, cc[..], n, ip, l, lc, EvenRow(cols, v, l, j - 1), OddRow(cols, v, l, j - 1))
    {
      iwal := NextIwal(iwal, j, l, ip);
      var xwal := wal[iwal];
      TableAt(wal, v, ip, j * l);
      iwal := NextIwal(iwal, j + 1, l, ip);
      var xwal2 := wal[iwal];
      TableAt(wal, v, ip, (j + 1) * l);
      AccumulateTwo(n, ip, l, lc, j, jc, xwal, xwal2, cc, ch, s0, cols, v);
      j, jc := j + 2, jc - 2;
    }
    while j < ipph
      invariant 3 <= j <= ipph && jc == ip - j
      invariant iwal == ((j - 1) * l) % ip
      invariant ch[..] == old(ch[..])
      invariant RowsSet(s0, cc[..], n, ip, l, lc, EvenRow(cols, v, l, j - 1), OddRow(cols, v, l, j - 1))
    {
      iwal := NextIwal(iwal, j, l, ip);
      var xwal := wal[iwal];
      TableAt(wal, v, ip, j * l);
      Accumulate(n, ip, l, lc, j, jc, xwal, cc, ch, s0, cols, v);
      j, jc := j + 1, jc - 1;
    }
  }

  lemma TableSize(wal: seq<Complex>, v: Complex, ip: nat)
    requires PowerTable(wal, v, ip)
    ensures |wal| == ip
  {}

  lemma SmallMod(a: nat, p: nat)
    requires a < p
    ensures a % p == a
  {}

  // ---------- the loops over positions (i, k) ----------

  function ColsOf(x: seq<Complex>, ido: nat, ip: nat): nat -> seq<Complex>
    requires ido > 0
  {
    (ik: nat) => Col(x, ido, ip, ik)
  }

  /** Position `(i, k)` is flat column `ik`, in either reading of a buffer. */
  lemma Flat(ido: nat, l1: nat, ip: nat, i: nat, k: nat)
    requires i < ido && k < l1
    ensures Idx(i, ido, k) < Prod(ido, l1)
    ensures Idx(i, ido, k) % ido == i && Idx(i, ido, k) / ido == k
    ensures Idx(i, ido, k) + 1 == Idx(i + 1, ido, k)
    ensures forall j: nat :: Idx(i, ido, Idx(k, l1, j)) == Idx(Idx(i, ido, k), Prod(ido, l1), j)
  {
    IdxBound(i, ido, k, l1);
    ModUnique(Idx(i, ido, k), ido, k, i);
    forall j: nat
      ensures Idx(i, ido, Idx(k, l1, j)) == Idx(Idx(i, ido, k), Prod(ido, l1), j)
    {
      assert ido * (k + l1 * j) == ido * k + (ido * l1) * j;
    }
  }

  lemma FlatEnds(ido: nat, l1: nat, k: nat)
    ensures Idx(ido, ido, k) == Idx(0, ido, k + 1) && Idx(0, ido, 0) == 0 && Idx(0, ido, l1) == Prod(ido, l1)
  {
    assert ido * (k + 1) == ido * k + ido;
  }

  /** The value input row `j` holds at position `(i, k)`. */
  lemma InputAt(x: seq<Complex>, ido: nat, l1: nat, ip: nat, i: nat, k: nat, j: nat)
    requires |x| == Times3(l1, ip, ido) && i < ido && k < l1 && j < ip
    ensures Idx(i, ido, Idx(j, ip, k)) < |x|
    ensures x[Idx(i, ido, Idx(j, ip, k))] == At(ColsOf(x, ido, ip)(Idx(i, ido, k)), j)
  {
    Flat(ido, l1, ip, i, k);
    CellIndex(ido, ip, l1, i, j, k);
    assert Times3(ip, l1, ido) == Times3(l1, ip, ido);
    hide Idx, Times3;
    assert At(Column(x, ido, ip, i, k), j) == Cell(x, ido, ip, i, j, k);
  }

  lemma Sizes(l1: nat, ip: nat, ido: nat)
    ensures Times3(l1, ip, ido) == Prod(Prod(ido, l1), ip)
  {}

  /** A row of sums and its mirror row of differences; for row 0, a plain copy. */
  method PairRow(ido: nat, ip: nat, l1: nat, j: nat, jc: nat, cc: array<Complex>, ch: array<Complex>)
    requires cc != ch && cc.Length == ch.Length == Times3(l1, ip, ido)
    requires ido > 0 && ip % 2 == 1 && j <= ip / 2 && jc == if j == 0 then 0 else ip - j
    modifies ch
    ensures var cols := ColsOf(cc[..], ido, ip);
            RowsSet(old(ch[..]), ch[..], Prod(ido, l1), ip, j, jc, PairedRow(cols, j), PairedRow(cols, jc))
  {
    Sizes(l1, ip, ido);
    hide Prod, Idx, Add, Sub, Times3, Paired;
    ghost var n, x, s0 := Prod(ido, l1), cc[..], ch[..];
    ghost var cols := ColsOf(x, ido, ip);
    ghost var f, g := RowOfEntries(s0, n, j), RowOfEntries(s0, n, jc);
    ghost var f', g' := PairedRow(cols, j), PairedRow(cols, jc);
    RowsUntouched(s0, n, ip, j, jc);
    FlatEnds(ido, l1, 0);
    RowsCong(s0, s0, n, ip, j, jc, f, g, Mix(0, f', f), Mix(0, g', g));
    for k := 0 to l1
      invariant cc[..] == x
      invariant RowsSet(s0, ch[..], n, ip, j, jc, Mix(Idx(0, ido, k), f', f), Mix(Idx(0, ido, k), g', g))
    {
      for i := 0 to ido
        invariant cc[..] == x
        invariant RowsSet(s0, ch[..], n, ip, j, jc, Mix(Idx(i, ido, k), f', f), Mix(Idx(i, ido, k), g', g))
      {
        ghost var ik := Idx(i, ido, k);
        Flat(ido, l1, ip, i, k);
        InputAt(x, ido, l1, ip, i, k, j);
        InputAt(x, ido, l1, ip, i, k, jc);
        ColumnSet(s0, ch[..], n, ip, j, jc, Mix(ik, f', f), Mix(ik, g', g), ik, Mix(ik + 1, f', f), Mix(ik + 1, g', g));
        RowIndices(n, ip, ik, j, jc);
        ghost var was := ch[..];
        var a, b := cc[Idx(i, ido, Idx(j, ip, k))], cc[Idx(i, ido, Idx(jc, ip, k))];
        PairedIs(cols(ik), ip, j, jc);
        if j == 0 {
          ch[Idx(i, ido, Idx(k, l1, 0))] := a;
        } else {
          ch[Idx(i, ido, Idx(k, l1, j))] := Add(a, b);
          ch[Idx(i, ido, Idx(k, l1, jc))] := Sub(a, b);
        }
        assert ch[..] == was[Idx(ik, n, j) := f'(ik)][Idx(ik, n, jc) := g'(ik)];
      }
      FlatEnds(ido, l1, k);
    }
    FlatEnds(ido, l1, 0);
    RowsCong(s0, ch[..], n, ip, j, jc, Mix(n, f', f), Mix(n, g', g), f', g');
  }

  lemma PairedIs(col: seq<Complex>, ip: nat, j: nat, jc: nat)
    requires |col| == ip && ip % 2 == 1 && j <= ip / 2 && jc == if j == 0 then 0 else ip - j
    ensures j == 0 ==> Paired(col, j) == Paired(col, jc) == At(col, 0)
    ensures j > 0 ==> Paired(col, j) == Add(At(col, j), At(col, jc)) && Paired(col, jc) == Sub(At(col, j), At(col, jc))
  {}

  /** The first two loops: `ch` becomes rows of sums and differences of the inputs. */
  method PairRows(ido: nat, ip: nat, l1: nat, cc: array<Complex>, ch: array<Complex>)
    requires cc != ch && cc.Length == ch.Length == Times3(l1, ip, ido)
    requires ido > 0 && ip % 2 == 1
    modifies ch
    ensures PairedRows(ch[..], Prod(ido, l1), ip, ColsOf(cc[..], ido, ip))
  {
    Sizes(l1, ip, ido);
    hide Prod, Idx, Times3, Paired, Entry;
    ghost var n, x := Prod(ido, l1), cc[..];
    ghost var cols := ColsOf(x, ido, ip);
    ghost var f: (nat, nat) -> Complex := (ik: nat, row: nat) => Paired(cols(ik), row);
    ghost var s0 := ch[..];
    PairRow(ido, ip, l1, 0, 0, cc, ch);
    ghost var g: (nat, nat) -> Complex := (ik: nat, row: nat) => Entry(s0, n, ik, row);
    assert RowsAre(ch[..], n, ip, 1, f, g);
    var j, jc := 1, ip - 1;
    while j < (ip + 1) / 2
      invariant 1 <= j <= (ip + 1) / 2 && jc == ip - j
      invariant cc[..] == x
      invariant RowsAre(ch[..], n, ip, j, f, g)
    {
      ghost var was := ch[..];
      PairRow(ido, ip, l1, j, jc, cc, ch);
      RowsAreStep(was, ch[..], n, ip, j, f, g, PairedRow(cols, j), PairedRow(cols, jc));
      j, jc := j + 1, jc - 1;
    }
  }

  function PlainSum(col: seq<Complex>, t: nat): Complex { Add(At(col, 0), Sum(t, SumTerm(col))) }

  function PlainRow(cols: nat -> seq<Complex>, t: nat): nat -> Complex { (ik: nat) => PlainSum(cols(ik), t) }

  /** The loop for output row 0: the plain sums of the columns. */
  method SumRow(n: nat, ip: nat, cc: array<Complex>, ch: array<Complex>, ghost cols: nat -> seq<Complex>)
    requires cc != ch && PairedRows(ch[..], n, ip, cols) && cc.Length == Prod(n, ip) && ip % 2 == 1
    modifies cc
    ensures RowsSet(old(cc[..]), cc[..], n, ip, 0, 0, PlainRow(cols, ip / 2), PlainRow(cols, ip / 2))
  {
    hide Prod, Idx, Add, Sub, SumOf, DiffOf;
    ghost var s0 := cc[..];
    ghost var f, f' := RowOfEntries(s0, n, 0), PlainRow(cols, ip / 2);
    RowsUntouched(s0, n, ip, 0, 0);
    RowsCong(s0, s0, n, ip, 0, 0, f, f, Mix(0, f', f), Mix(0, f', f));
    for ik := 0 to n
      invariant ch[..] == old(ch[..])
      invariant RowsSet(s0, cc[..], n, ip, 0, 0, Mix(ik, f', f), Mix(ik, f', f))
    {
      RowIndices(n, ip, ik, 0, 0);
      ghost var col := cols(ik);
      assert Entry(ch[..], n, ik, 0) == At(col, 0);
      var tmp := ch[Idx(ik, n, 0)];
      AddZero(At(col, 0));
      ghost var was := cc[..];
      for j := 1 to (ip + 1) / 2
        invariant cc[..] == was && ch[..] == old(ch[..])
        invariant tmp == PlainSum(col, j - 1)
      {
        RowIndices(n, ip, ik, j, j);
        assert Entry(ch[..], n, ik, j) == SumOf(col, j - 1);
        AddAssoc(At(col, 0), Sum(j - 1, SumTerm(col)), SumOf(col, j - 1));
        tmp := Add(tmp, ch[Idx(ik, n, j)]);
      }
      ColumnSet(s0, cc[..], n, ip, 0, 0, Mix(ik, f', f), Mix(ik, f', f), ik, Mix(ik + 1, f', f), Mix(ik + 1, f', f));
      cc[Idx(ik, n, 0)] := tmp;
      assert cc[..] == was[Idx(ik, n, 0) := f'(ik)][Idx(ik, n, 0) := f'(ik)];
    }
    RowsCong(s0, cc[..], n, ip, 0, 0, Mix(n, f', f), Mix(n, f', f), f', f');
  }

  /** What row `row` holds after mixing: the shared part, or the part that mirrors differ by. */
  function Mixed(col: seq<Complex>, v: Complex, row: nat): Complex {
    if row == 0 then PlainSum(col, |col| / 2)
    else if row <= |col| / 2 then EvenPart(col, v, row)
    else if row <= |col| then OddPart(col, v, |col| - row)
    else ZERO
  }

  function MixedAt(cols: nat -> seq<Complex>, v: Complex): (nat, nat) -> Complex {
    (ik: nat, row: nat) => Mixed(cols(ik), v, row)
  }

  /** The two middle phases: `cc` becomes the mixed rows. */
  method MixRows(n: nat, ip: nat, wal: seq<Complex>, cc: array<Complex>, ch: array<Complex>,
                 ghost cols: nat -> seq<Complex>, ghost v: Complex)
    requires cc != ch && PairedRows(ch[..], n, ip, cols) && cc.Length == Prod(n, ip)
    requires Prime(ip) && 5 <= ip && ip % 2 == 1 && PowerTable(wal, v, ip)
    modifies cc
    ensures RowsAre(cc[..], n, ip, (ip + 1) / 2, MixedAt(cols, v), MixedAt(cols, v))
  {
    hide Prod, Idx, Prime, PowerTable, EvenPart, OddPart, EvenUpTo, OddUpTo, PlainSum, Entry;
    ghost var s0 := cc[..];
    ghost var f := MixedAt(cols, v);
    ghost var g: (nat, nat) -> Complex := (ik: nat, row: nat) => Entry(s0, n, ik, row);
    SumRow(n, ip, cc, ch, cols);
    assert RowsAre(cc[..], n, ip, 1, f, g);
    var l, lc := 1, ip - 1;
    while l < (ip + 1) / 2
      invariant 1 <= l <= (ip + 1) / 2 && lc == ip - l
      invariant ch[..] == old(ch[..])
      invariant RowsAre(cc[..], n, ip, l, f, g)
    {
      ghost var was := cc[..];
      MixRow(n, ip, l, lc, wal, cc, ch, cols, v);
      MixedParts(cols, v, n, ip, l);
      RowsAreStep(was, cc[..], n, ip, l, f, g, EvenRow(cols, v, l, ip / 2), OddRow(cols, v, l, ip / 2));
      l, lc := l + 1, lc - 1;
    }
  }

  lemma MixedParts(cols: nat -> seq<Complex>, v: Complex, n: nat, ip: nat, l: nat)
    requires forall ik: nat :: ik < n ==> |cols(ik)| == ip
    requires ip % 2 == 1 && 0 < l <= ip / 2
    ensures forall ik: nat :: ik < n ==> EvenRow(cols, v, l, ip / 2)(ik) == MixedAt(cols, v)(ik, l)
    ensures forall ik: nat :: ik < n ==> OddRow(cols, v, l, ip / 2)(ik) == MixedAt(cols, v)(ik, ip - l)
  {}

  // ---------- the last phase: combining and twisting ----------

  function TwistedAt(cols: nat -> seq<Complex>, wa: seq<Complex>, sign: int, ido: nat,
                     v: Complex): (nat, nat) -> Complex
    requires ido > 0
  {
    (ik: nat, row: nat) => Twisted(wa, sign, ido, ik % ido, row, DftAt(cols(ik), v, row))
  }

  function RowAt(f: (nat, nat) -> Complex, row: nat): nat -> Complex { (ik: nat) => f(ik, row) }

  /** The sum and the difference of the mixed rows are the transforms at `j` and `ip - j`. */
  lemma Recombine(col: seq<Complex>, v: Complex, ip: nat, j: nat)
    requires |col| == ip && ip % 2 == 1 && 0 < j <= ip / 2
    requires Mul(v, Conj(v)) == ONE && Pow(v, ip) == ONE
    ensures Add(Mixed(col, v, j), Mixed(col, v, ip - j)) == DftAt(col, v, j)
    ensures Sub(Mixed(col, v, j), Mixed(col, v, ip - j)) == DftAt(col, v, ip - j)
  {
    hide Mul, Conj, Pow, EvenPart, OddPart, DftAt;
    OddDft(col, v, j);
    OddDftMirror(col, v, j);
  }

  method TwistRow(ido: nat, ip: nat, l1: nat, j: nat, jc: nat, wa: seq<Complex>, sign: int, cc: array<Complex>,
                  ghost cols: nat -> seq<Complex>, ghost v: Complex)
    requires ido > 0 && ip % 2 == 1 && 0 < j <= ip / 2 && jc == ip - j && cc.Length == Times3(l1, ip, ido)
    requires forall c: nat :: c < Prod(ido, l1) ==> |cols(c)| == ip
    requires Mul(v, Conj(v)) == ONE && Pow(v, ip) == ONE
    requires RowsAre(cc[..], Prod(ido, l1), ip, j, TwistedAt(cols, wa, sign, ido, v), MixedAt(cols, v))
    requires forall i: nat :: 0 < i < ido ==> TwiddleIndex(ido, i, j) < |wa| && TwiddleIndex(ido, i, jc) < |wa|
    modifies cc
    ensures RowsAre(cc[..], Prod(ido, l1), ip, j + 1, TwistedAt(cols, wa, sign, ido, v), MixedAt(cols, v))
  {
    Sizes(l1, ip, ido);
    hide Prod, Idx, Add, Sub, Mul, Conj, Pow, Times3, Mixed, DftAt, TwiddleIndex, Signed, RowsSet;
    ghost var n, s0 := Prod(ido, l1), cc[..];
    ghost var t := TwistedAt(cols, wa, sign, ido, v);
    ghost var f, g := RowOfEntries(s0, n, j), RowOfEntries(s0, n, jc);
    ghost var f', g' := RowAt(t, j), RowAt(t, jc);
    RowsUntouched(s0, n, ip, j, jc);
    FlatEnds(ido, l1, 0);
    RowsCong(s0, s0, n, ip, j, jc, f, g, Mix(0, f', f), Mix(0, g', g));
    for k := 0 to l1
      invariant RowsSet(s0, cc[..], n, ip, j, jc, Mix(Idx(0, ido, k), f', f), Mix(Idx(0, ido, k), g', g))
    {
      for i := 0 to ido
        invariant RowsSet(s0, cc[..], n, ip, j, jc, Mix(Idx(i, ido, k), f', f), Mix(Idx(i, ido, k), g', g))
      {
        ghost var ik := Idx(i, ido, k);
        Flat(ido, l1, ip, i, k);
        RowIndices(n, ip, ik, j, jc);
        ColumnSet(s0, cc[..], n, ip, j, jc, Mix(ik, f', f), Mix(ik, g', g), ik, Mix(ik + 1, f', f), Mix(ik + 1, g', g));
        ghost var was := cc[..];
        RowsSetAt(s0, was, n, ip, j, jc, Mix(ik, f', f), Mix(ik, g', g), ik);
        assert Entry(s0, n, ik, j) == Mixed(cols(ik), v, j) && Entry(s0, n, ik, jc) == Mixed(cols(ik), v, jc);
        Recombine(cols(ik), v, ip, j);
        var t1, t2 := cc[Idx(i, ido, Idx(k, l1, j))], cc[Idx(i, ido, Idx(k, l1, jc))];
        var x1, x2 := Add(t1, t2), Sub(t1, t2);
        if i == 0 {
          cc[Idx(i, ido, Idx(k, l1, j))] := x1;
          cc[Idx(i, ido, Idx(k, l1, jc))] := x2;
        } else {
          cc[Idx(i, ido, Idx(k, l1, j))] := Mul(Signed(wa[TwiddleIndex(ido, i, j)], sign), x1);
          cc[Idx(i, ido, Idx(k, l1, jc))] := Mul(Signed(wa[TwiddleIndex(ido, i, jc)], sign), x2);
        }
        assert cc[..] == was[Idx(ik, n, j) := f'(ik)][Idx(ik, n, jc) := g'(ik)];
      }
      FlatEnds(ido, l1, k);
    }
    FlatEnds(ido, l1, 0);
    RowsCong(s0, cc[..], n, ip, j, jc, Mix(n, f', f), Mix(n, g', g), f', g');
    RowsAreStep(s0, cc[..], n, ip, j, t, MixedAt(cols, v), f', g');
  }

  lemma RowsSetAt(s0: seq<Complex>, s: seq<Complex>, n: nat, ip: nat, l: nat, lc: nat,
                  f: nat -> Complex, g: nat -> Complex, ik: nat)
    requires RowsSet(s0, s, n, ip, l, lc, f, g) && ik < n && l < ip && lc < ip && l != lc
    ensures Entry(s, n, ik, l) == f(ik) && Entry(s, n, ik, lc) == g(ik)
  {}

  method TwistRows(ido: nat, ip: nat, l1: nat, wa: seq<Complex>, sign: int, cc: array<Complex>,
                   ghost cols: nat -> seq<Complex>, ghost v: Complex)
    requires ido > 0 && ip % 2 == 1 && cc.Length == Times3(l1, ip, ido)
    requires forall c: nat :: c < Prod(ido, l1) ==> |cols(c)| == ip
    requires Mul(v, Conj(v)) == ONE && Pow(v, ip) == ONE
    requires RowsAre(cc[..], Prod(ido, l1), ip, (ip + 1) / 2, MixedAt(cols, v), MixedAt(cols, v))
    requires forall i: nat, j: nat :: 0 < i < ido && 0 < j < ip ==> TwiddleIndex(ido, i, j) < |wa|
    modifies cc
    ensures RowsAre(cc[..], Prod(ido, l1), ip, (ip + 1) / 2, TwistedAt(cols, wa, sign, ido, v), MixedAt(cols, v))
  {
    hide Prod, Mul, Conj, Pow, Times3, Mixed, DftAt, TwiddleIndex, Signed, Entry;
    RowZeroReady(cc[..], ido, ip, l1, wa, sign, cols, v);
    var j, jc := 1, ip - 1;
    while j < (ip + 1) / 2
      invariant 1 <= j <= (ip + 1) / 2 && jc == ip - j
      invariant RowsAre(cc[..], Prod(ido, l1), ip, j, TwistedAt(cols, wa, sign, ido, v), MixedAt(cols, v))
    {
      TwistRow(ido, ip, l1, j, jc, wa, sign, cc, cols, v);
      j, jc := j + 1, jc - 1;
    }
  }

  lemma RowZeroReady(s: seq<Complex>, ido: nat, ip: nat, l1: nat, wa: seq<Complex>, sign: int,
                     cols: nat -> seq<Complex>, v: Complex)
    requires ido > 0 && ip % 2 == 1
    requires forall c: nat :: c < Prod(ido, l1) ==> |cols(c)| == ip
    requires RowsAre(s, Prod(ido, l1), ip, (ip + 1) / 2, MixedAt(cols, v), MixedAt(cols, v))
    ensures RowsAre(s, Prod(ido, l1), ip, 1, TwistedAt(cols, wa, sign, ido, v), MixedAt(cols, v))
  {
    hide Prod, Entry, DftAt, PlainSum;
    forall c: nat | c < Prod(ido, l1)
      ensures MixedAt(cols, v)(c, 0) == TwistedAt(cols, wa, sign, ido, v)(c, 0)
    {
      RowZero(cols(c), v);
    }
  }

  lemma RowZero(col: seq<Complex>, v: Complex)
    requires |col| % 2 == 1
    ensures Mixed(col, v, 0) == DftAt(col, v, 0)
  {
    OddDftZero(col, v);
  }

  /** The generic radix pass. Its result is back in `cc`. */
  method PassG(ido: nat, ip: nat, l1: nat, cc: array<Complex>, ch: array<Complex>, wa: seq<Complex>,
               csarr: seq<Complex>, sign: int, ghost w: Complex)
    requires cc != ch && cc.Length == ch.Length == Times3(l1, ip, ido)
    requires Prime(ip) && 5 <= ip && ip % 2 == 1 && ido > 0
    requires UnitRoot(w, Times3(l1, ip, ido)) && Twiddles(wa, w, ido, ip, l1)
    requires forall i: nat, j: nat :: 0 < i < ido && 0 < j < ip ==> TwiddleIndex(ido, i, j) < |wa|
    requires |csarr| == ip && forall m: nat :: m < ip ==> At(csarr, m) == Pow(Pow(w, Prod(l1, ido)), m)
    modifies cc, ch
    ensures IsPass(old(cc[..]), cc[..], Signed(w, sign), ido, ip, l1)
  {
    hide *;
    ghost var v, x := Pow(Signed(w, sign), Prod(l1, ido)), cc[..];
    var wal := SignedAll(csarr, sign);
    SignedTable(w, sign, l1, ip, ido, csarr);
    UnitRootFacts(v, ip);
    Sizes(l1, ip, ido);
    ghost var cols := ColsOf(x, ido, ip);
    ColsSize(x, ido, ip);
    PairRows(ido, ip, l1, cc, ch);
    MixRows(Prod(ido, l1), ip, wal, cc, ch, cols, v);
    TwistRows(ido, ip, l1, wa, sign, cc, cols, v);
    TwistedIsPass(x, cc[..], wa, w, sign, ido, ip, l1);
  }

  lemma UnitRootFacts(v: Complex, n: nat)
    requires UnitRoot(v, n)
    ensures Mul(v, Conj(v)) == ONE && Pow(v, n) == ONE
  {}

  lemma ColsSize(x: seq<Complex>, ido: nat, ip: nat)
    requires ido > 0
    ensures forall c: nat :: |ColsOf(x, ido, ip)(c)| == ip
  {}

  lemma TwistedIsPass(x: seq<Complex>, y: seq<Complex>, wa: seq<Complex>, w: Complex, sign: int, ido: nat, ip: nat,
                      l1: nat)
    requires ido > 0 && ip % 2 == 1 && |x| == |y| == Times3(l1, ip, ido)
    requires Twiddles(wa, w, ido, ip, l1)
    requires var v := Pow(Signed(w, sign), Prod(l1, ido));
             var cols := ColsOf(x, ido, ip);
             RowsAre(y, Prod(ido, l1), ip, (ip + 1) / 2, TwistedAt(cols, wa, sign, ido, v), MixedAt(cols, v))
    ensures IsPass(x, y, Signed(w, sign), ido, ip, l1)
  {
    hide Idx, Times3, Prod, DftAt, Mul, Pow, Signed, TwiddleIndex;
    var u, v := Signed(w, sign), Pow(Signed(w, sign), Prod(l1, ido));
    var cols := ColsOf(x, ido, ip);
    forall i: nat, k: nat, j: nat | i < ido && k < l1 && j < ip
      ensures Cell(y, ido, l1, i, k, j) == Mul(Pow(u, Times3(l1, i, j)), DftAt(Column(x, ido, ip, i, k), v, j))
    {
      Flat(ido, l1, ip, i, k);
      var ik := Idx(i, ido, k);
      assert Cell(y, ido, l1, i, k, j) == Entry(y, Prod(ido, l1), ik, j);
      var d := DftAt(Column(x, ido, ip, i, k), v, j);
      assert Entry(y, Prod(ido, l1), ik, j) == Twisted(wa, sign, ido, i, j, d);
      if i == 0 || j == 0 {
        NoTurn(u, l1, i, j);
        MulOne(d);
      } else {
        SignedPow(w, sign, Times3(l1, i, j));
      }
    }
  }

  lemma SignedTable(w: Complex, sign: int, l1: nat, ip: nat, ido: nat, csarr: seq<Complex>)
    requires UnitRoot(w, Times3(l1, ip, ido))
    requires |csarr| == ip && forall m: nat :: m < ip ==> At(csarr, m) == Pow(Pow(w, Prod(l1, ido)), m)
    ensures PowerTable(SignedAll(csarr, sign), Pow(Signed(w, sign), Prod(l1, ido)), ip)
    ensures UnitRoot(Pow(Signed(w, sign), Prod(l1, ido)), ip)
  {
    hide Prod, Times3, Pow, Signed, Mul, Conj;
    ColumnRoot(w, sign, l1, ip, ido);
    var r := Pow(w, Prod(l1, ido));
    SignedPow(w, sign, Prod(l1, ido));
    forall m: nat | m < ip
      ensures At(SignedAll(csarr, sign), m) == Pow(Signed(r, sign), m)
    {
      assert At(csarr, m) == csarr[m];
      SignedPow(r, sign, m);
    }
  }
}
