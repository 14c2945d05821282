/** The columns of the hard-coded real passes: which cells hold their inputs and their outputs. */
module RealColumns {
  import opened Basics
  import opened Complexes
  import opened Dft
  import opened RadixPass
  import opened Butterflies
  import opened Passes
  import opened RealSpectra
  import opened RealStages
  import SinCos

  // ---------- the factors ----------

  /** WA of the real passes: real and imaginary part lie side by side. */
  function WA(wa: seq<real>, ido: nat, x: nat, i: nat): real
    requires ido > 0
  {
    Slot(wa, Idx(i, ido - 1, x))
  }

  function FactorAt(wa: seq<real>, ido: nat, q: nat, j: nat): Complex
    requires q > 0 && j > 0 && ido > 0
  {
    var a := Idx(2 * q - 2, ido - 1, j - 1);
    Complex(Slot(wa, a), Slot(wa, a + 1))
  }

  lemma FactorCells(wa: seq<real>, ido: nat, q: nat, j: nat)
    requires q > 0 && j > 0 && ido > 0
    ensures FactorAt(wa, ido, q, j) == Complex(WA(wa, ido, j - 1, 2 * q - 2), WA(wa, ido, j - 1, 2 * q - 1))
  {}

  /** The factor of input `j` at frequency `q`: none at the zero frequency, a literal at the middle
      one, which the tables leave out. */
  function Factor(wa: seq<real>, halfway: seq<Complex>, ido: nat, q: nat, j: nat): Complex {
    if q == 0 || j == 0 || ido == 0 then ONE
    else if 2 * q < ido then FactorAt(wa, ido, q, j)
    else At(halfway, j)
  }

  /** The powers of an eighth of a turn, `hsqt2 (1 + i)`, without its rounding. */
  function Eighths(e: Complex): seq<Complex> { [ONE, e, I, Mul(e, I)] }

  /** The literals at the middle frequency; radix 3 and 5 have no such frequency. */
  function Halfway(ip: nat, r: Complex): seq<Complex> {
    if ip == 2 then [ONE, I] else if ip == 4 then Eighths(r) else []
  }

  /** The radices with a pass of their own. */
  predicate Fixed(ip: nat) { ip == 2 || ip == 3 || ip == 4 || ip == 5 }

  /** The short transform of each radix, by its literals: the root of a column for radix 3 and 5. */
  function FixedButterfly(ip: nat, r: Complex, sign: int, col: seq<Complex>): (y: seq<Complex>) {
    if ip == 2 then Butterfly2(col)
    else if ip == 4 then Butterfly4(col, sign)
    else OddButterfly(col, SignedAll(Literals(r, ip), sign), if ip == 3 then ROWS_3 else ROWS_5)
  }

  lemma FixedLength(ip: nat, r: Complex, sign: int, col: seq<Complex>)
    requires Fixed(ip) && |col| == ip
    ensures |FixedButterfly(ip, r, sign, col)| == ip
  {}

  /** MULPM: the product with the conjugate of `c + id`. */
  function MulPM(c: real, d: real, e: real, f: real): Complex { Complex(c * e + d * f, c * f - d * e) }

  lemma MulPMIs(c: real, d: real, e: real, f: real)
    ensures MulPM(c, d, e, f) == Mul(Conj(Complex(c, d)), Complex(e, f))
    ensures Mul(Complex(c, d), Complex(e, f)) == Complex(MulPM(c, d, f, e).im, MulPM(c, d, f, e).re)
  {}

  /** MULPM: the inputs turned by their conjugated factors. */
  function TurnedColumn(x: seq<real>, wa: seq<real>, halfway: seq<Complex>, ido: nat, ip: nat, l1: nat,
                        k: nat, q: nat): (col: seq<Complex>)
    ensures |col| == ip
  {
    seq(ip, (j: nat) => Mul(Conj(Factor(wa, halfway, ido, q, j)), BlockBin(x, ido, Idx(k, l1, j), q)))
  }

  // ---------- the short transforms, written out ----------

  /** Both outputs of a mirror pair from their shared and their opposite part. */
  lemma ThreeOutputs(a: Complex, b: Complex, c: Complex, r: Complex, sign: int)
    ensures
      var e, o := Add(a, Scale(r.re, Add(b, c))), Turn(Scale(Signed(r, sign).im, Sub(b, c)));
      FixedButterfly(3, r, sign, [a, b, c]) == [Add(a, Add(b, c)), Add(e, o), Sub(e, o)]
  {
    var x, tw := [a, b, c], SignedAll(Literals(r, 3), sign);
    assert |tw| == 2 && tw[1] == Signed(r, sign) by { SmallPowers(r); hide Mul, Signed; }
    assert Signed(r, sign).re == r.re;
    OneTerm(SumTerm(x));
    OneTerm(RowEvenTerm(x, tw, [1]));
    OneTerm(RowOddTerm(x, tw, [1]));
    assert SumOf(x, 0) == Add(b, c) && DiffOf(x, 0) == Sub(b, c) by { hide Add, Sub; }
    hide Add, Sub, Scale, Turn, Signed, Mul, Pow, Literals, SignedAll, Sums.Sum;
  }

  lemma LiteralsOfFive(r: Complex, sign: int)
    ensures
      var tw := SignedAll(Literals(r, 5), sign);
      |tw| == 3 && tw[1] == Signed(r, sign) && tw[2] == Signed(Mul(r, r), sign)
  {
    SmallPowers(r);
    hide Mul, Signed;
  }

  /** What the two mirror pairs of five inputs share (`c`, `d`) and what sets them apart (`s`, `t`). */
  function Shared5(a: Complex, s1: Complex, s2: Complex, c: real, d: real): Complex {
    Add(a, Add(Scale(c, s1), Scale(d, s2)))
  }

  function Apart5(d1: Complex, d2: Complex, s: real, t: real): Complex {
    Add(Turn(Scale(s, d1)), Turn(Scale(t, d2)))
  }

  lemma FiveRows(x: seq<Complex>, tw: seq<Complex>, r1: Complex, r2: Complex)
    requires |x| == 5 && |tw| == 3 && tw[1] == r1 && tw[2] == r2
    ensures Sums.Sum(2, SumTerm(x)) == Add(Add(x[1], x[4]), Add(x[2], x[3]))
    ensures RowEven(x, tw, [1, 2]) == Shared5(x[0], Add(x[1], x[4]), Add(x[2], x[3]), r1.re, r2.re)
    ensures RowEven(x, tw, [2, -1]) == Shared5(x[0], Add(x[1], x[4]), Add(x[2], x[3]), r2.re, r1.re)
    ensures RowOdd(x, tw, [1, 2]) == Apart5(Sub(x[1], x[4]), Sub(x[2], x[3]), r1.im, r2.im)
    ensures RowOdd(x, tw, [2, -1]) == Apart5(Sub(x[1], x[4]), Sub(x[2], x[3]), r2.im, -r1.im)
  {
    TwoTerms(SumTerm(x));
    TwoTerms(RowEvenTerm(x, tw, [1, 2]));
    TwoTerms(RowEvenTerm(x, tw, [2, -1]));
    TwoTerms(RowOddTerm(x, tw, [1, 2]));
    TwoTerms(RowOddTerm(x, tw, [2, -1]));
    hide Add, Sub, Scale, Turn, Sums.Sum;
  }

  /** The five outputs, from the parts of the two mirror pairs. */
  lemma FiveOutputs(x: seq<Complex>, r: Complex, sign: int, r1: Complex, r2: Complex,
                    e1: Complex, o1: Complex, e2: Complex, o2: Complex)
    requires |x| == 5 && r1 == Signed(r, sign) && r2 == Signed(Mul(r, r), sign)
    requires e1 == Shared5(x[0], Add(x[1], x[4]), Add(x[2], x[3]), r1.re, r2.re)
    requires o1 == Apart5(Sub(x[1], x[4]), Sub(x[2], x[3]), r1.im, r2.im)
    requires e2 == Shared5(x[0], Add(x[1], x[4]), Add(x[2], x[3]), r2.re, r1.re)
    requires o2 == Apart5(Sub(x[1], x[4]), Sub(x[2], x[3]), r2.im, -r1.im)
    ensures
      var y := FixedButterfly(5, r, sign, x);
      && |y| == 5 && At(y, 0) == Add(x[0], Add(Add(x[1], x[4]), Add(x[2], x[3])))
      && At(y, 1) == Add(e1, o1) && At(y, 2) == Add(e2, o2) && At(y, 3) == Sub(e2, o2) && At(y, 4) == Sub(e1, o1)
  {
    LiteralsOfFive(r, sign);
    FiveRows(x, SignedAll(Literals(r, 5), sign), r1, r2);
    hide Add, Sub, Shared5, Apart5, Signed, Mul, Pow, Literals, SignedAll, Sums.Sum, RowEven, RowOdd, SumTerm;
  }

  /** Both parts of a mirror pair of outputs. */
  lemma SharedByProducts(a: Complex, u: Complex, v: Complex, s: real, t: real)
    ensures Shared5(a, u, v, s, t) == Complex(a.re + s * u.re + t * v.re, a.im + s * u.im + t * v.im)
  {
    ScaleParts(s, u);
    ScaleParts(t, v);
    hide Scale;
  }

  lemma ScaleParts(s: real, u: Complex)
    ensures Scale(s, u) == Complex(s * u.re, s * u.im)
  {}

  lemma ApartByProducts(u: Complex, v: Complex, s: real, t: real)
    ensures Apart5(u, v, s, t) == Complex(-MulPM(u.im, v.im, s, t).re, MulPM(u.re, v.re, s, t).re)
    ensures Apart5(u, v, t, -s) == Complex(-MulPM(u.im, v.im, s, t).im, MulPM(u.re, v.re, s, t).im)
  {
    ApartParts(u, v, s, t);
    ApartParts(u, v, t, -s);
    ProductParts(u.re, v.re, s, t);
    ProductParts(u.im, v.im, s, t);
    Opposite(s, u, v);
    hide Apart5, MulPM;
  }

  lemma ApartParts(u: Complex, v: Complex, s: real, t: real)
    ensures Apart5(u, v, s, t) == Complex(-(s * u.im) - t * v.im, s * u.re + t * v.re)
  {}

  lemma ProductParts(c: real, d: real, s: real, t: real)
    ensures MulPM(c, d, s, t) == Complex(s * c + t * d, t * c - s * d)
  {}

  lemma Opposite(s: real, u: Complex, v: Complex)
    ensures -s * v.re == -(s * v.re) && -s * v.im == -(s * v.im)
  {}

  /** The same with the conjugated root of the forward direction. */
  lemma ApartBack(a: real, b: real, c: real, d: real, s: real, t: real)
    ensures Apart5(Complex(-c, a), Complex(-d, b), -s, -t)
         == Complex(MulPM(a, b, s, t).re, MulPM(c, d, s, t).re)
    ensures Apart5(Complex(-c, a), Complex(-d, b), -t, s)
         == Complex(MulPM(a, b, s, t).im, MulPM(c, d, s, t).im)
  {
    ApartParts(Complex(-c, a), Complex(-d, b), -s, -t);
    ApartParts(Complex(-c, a), Complex(-d, b), -t, s);
    ProductParts(a, b, s, t);
    ProductParts(c, d, s, t);
    Signs(s, a);
    Signs(t, b);
    Signs(s, c);
    Signs(t, d);
    Signs(t, a);
    Signs(s, d);
    Signs(t, c);
    hide Apart5, MulPM;
  }

  lemma Signs(s: real, a: real)
    ensures -s * a == -(s * a) && s * -a == -(s * a) && -s * -a == s * a
  {}

  // ---------- assignments to cells ----------

  function Assigned(s: seq<real>, ido: nat, mid: nat, i: nat, k: nat, row: nat, v: real): (t: seq<real>)
    ensures |t| == |s|
  {
    var at := Idx(i, ido, Idx(k, mid, row));
    if at < |s| then s[at := v] else s
  }

  /** CH(i, k, row) = v, for a buffer of `mid` by `rows` blocks of `ido`. */
  method Assign(buf: array<real>, ido: nat, mid: nat, rows: nat, i: nat, k: nat, row: nat, v: real)
    requires buf.Length == Times3(mid, rows, ido) && i < ido && k < mid && row < rows
    modifies buf
    ensures buf[..] == Assigned(old(buf[..]), ido, mid, i, k, row, v)
  {
    CellIndex(ido, mid, rows, i, k, row);
    hide Times3, Idx;
    var at := Idx(i, ido, Idx(k, mid, row));
    ghost var was := buf[..];
    buf[at] := v;
    assert buf[..] == was[at := v];
  }

  // ---------- where a pass keeps the frequencies of a column ----------

  /** The places of frequency `q + ido p` of block `k`: two cells, or one where the spectrum is real. */
  lemma ZeroPlaces(ido: nat, ip: nat, k: nat, p: nat)
    requires ido > 0 && p > 0
    ensures Prod(Prod(ido, ip), k) == Idx(0, ido, Idx(0, ip, k))
    ensures Prod(Prod(ido, ip), k) + 2 * Idx(0, ido, p) == Idx(0, ido, Idx(2 * p, ip, k))
    ensures Prod(Prod(ido, ip), k) + 2 * Idx(0, ido, p) - 1 == Idx(ido - 1, ido, Idx(2 * p - 1, ip, k))
  {
    BlockPlace(ido, ip, k, 2 * p);
    BlockPlace(ido, ip, k, 2 * p - 1);
  }

  lemma BlockPlace(ido: nat, ip: nat, k: nat, b: nat)
    ensures ido * (b + ip * k) == ido * ip * k + ido * b
  {}

  /** Any frequency below the middle of its block. */
  lemma LowPlaces(ido: nat, ip: nat, k: nat, q: nat, p: nat)
    requires q > 0
    ensures Prod(Prod(ido, ip), k) + 2 * Idx(q, ido, p) == Idx(2 * q, ido, Idx(2 * p, ip, k))
  {
    BlockPlace(ido, ip, k, 2 * p);
  }

  /** The mirror image of a frequency above the middle. */
  lemma HighPlaces(ido: nat, ip: nat, k: nat, q: nat, p: nat)
    requires 2 * q < ido && p < ip
    ensures Idx(q, ido, p) <= Prod(ido, ip)
    ensures Prod(Prod(ido, ip), k) + 2 * (Prod(ido, ip) - Idx(q, ido, p))
         == Idx(ido - 2 * q, ido, Idx(2 * (ip - p) - 1, ip, k))
  {
    BlockPlace(ido, ip, k, 2 * (ip - p) - 1);
    assert ido * ip - ido * p == ido * (ip - p);
    assert ido * (ip - p) >= ido by { MulMonotone(ido, 1, ip - p); }
    assert ido * (2 * (ip - p) - 1) == 2 * (ido * (ip - p)) - ido;
  }

  lemma FrequencySize(ido: nat, ip: nat, q: nat, p: nat)
    requires q < ido && p < ip
    ensures Idx(q, ido, p) < Prod(ido, ip)
    ensures q == 0 ==> (Idx(q, ido, p) == 0 <==> p == 0)
    ensures q > 0 ==> Idx(q, ido, p) > 0
    ensures q == 0 ==> (2 * Idx(q, ido, p) < Prod(ido, ip) <==> 2 * p < ip)
    ensures q == 0 ==> (2 * Idx(q, ido, p) == Prod(ido, ip) <==> 2 * p == ip)
    ensures 2 * q == ido ==> (2 * Idx(q, ido, p) < Prod(ido, ip) <==> 2 * p + 1 < ip)
    ensures 2 * q == ido ==> (2 * Idx(q, ido, p) == Prod(ido, ip) <==> 2 * p + 1 == ip)
    ensures 0 < 2 * q < ido ==> (2 * Idx(q, ido, p) < Prod(ido, ip) <==> 2 * p < ip)
    ensures 0 < 2 * q < ido ==> 2 * Idx(q, ido, p) != Prod(ido, ip)
  {
    IdxBound(q, ido, p, ip);
    TwiceCompared(ido, ip, q, p);
  }

  lemma TwiceCompared(ido: nat, ip: nat, q: nat, p: nat)
    requires q < ido
    ensures 2 * p < ip ==> 2 * (ido * p) + ido <= ido * ip
    ensures 2 * p == ip ==> 2 * (ido * p) == ido * ip
    ensures 2 * p > ip ==> 2 * (ido * p) >= ido * ip + ido
    ensures 2 * p + 1 < ip ==> 2 * (ido * p) + 2 * ido <= ido * ip
    ensures 2 * p + 1 == ip ==> 2 * (ido * p) + ido == ido * ip
    ensures p == 0 <==> ido * p == 0
  {
    assert ido * (2 * p) == 2 * (ido * p);
    if 2 * p + 2 <= ip { MulMonotone(ido, 2 * p + 2, ip); }
    if 2 * p + 1 <= ip { MulMonotone(ido, 2 * p + 1, ip); }
    if 2 * p >= ip + 1 { MulMonotone(ido, ip + 1, 2 * p); }
    if p > 0 { MulMonotone(ido, 1, p); }
  }

  function StoredOr(x: seq<real>, len: nat, b: nat, m: nat, v: Complex): (y: seq<real>)
    ensures |y| == |x|
  {
    if m < len && Prod(len, b) + len <= |x| then BlockStored(x, len, b, m, v) else x
  }

  ghost predicate BlockFits(x: seq<real>, ido: nat, ip: nat, k: nat) {
    Prod(Prod(ido, ip), k) + Prod(ido, ip) <= |x|
  }

  /** Frequency `m` of block `b` lies in the cells `(i, row, c)` and `(i', row', c)`. */
  ghost predicate TwoCells(x: seq<real>, len: nat, b: nat, m: nat,
                           ido: nat, mid: nat, i: nat, row: nat, i': nat, row': nat, c: nat)
  {
    && BlockBin(x, len, b, m) == Complex(CellAt(x, ido, mid, i, row, c), CellAt(x, ido, mid, i', row', c))
    && forall z: Complex {:trigger StoredOr(x, len, b, m, z)} ::
         StoredOr(x, len, b, m, z) == Assigned(Assigned(x, ido, mid, i, row, c, z.re), ido, mid, i', row', c, z.im)
  }

  /** Its conjugate lies there. */
  ghost predicate MirrorCells(x: seq<real>, len: nat, b: nat, m: nat,
                              ido: nat, mid: nat, i: nat, row: nat, i': nat, row': nat, c: nat)
  {
    && BlockBin(x, len, b, m) == Complex(CellAt(x, ido, mid, i, row, c), -CellAt(x, ido, mid, i', row', c))
    && forall z: Complex {:trigger StoredOr(x, len, b, m, z)} ::
         StoredOr(x, len, b, m, z) == Assigned(Assigned(x, ido, mid, i, row, c, z.re), ido, mid, i', row', c, -z.im)
  }

  /** It is real and lies in one cell. */
  ghost predicate OneCell(x: seq<real>, len: nat, b: nat, m: nat, ido: nat, mid: nat, i: nat, row: nat, c: nat) {
    && BlockBin(x, len, b, m) == Complex(CellAt(x, ido, mid, i, row, c), 0.0)
    && forall z: Complex {:trigger StoredOr(x, len, b, m, z)} ::
         StoredOr(x, len, b, m, z) == Assigned(x, ido, mid, i, row, c, z.re)
  }

  lemma ZeroCell(x: seq<real>, ido: nat, ip: nat, k: nat)
    requires BlockFits(x, ido, ip, k) && ido > 0 && ip > 0
    ensures OneCell(x, Prod(ido, ip), k, Idx(0, ido, 0), ido, ip, 0, 0, k)
  {
    FrequencySize(ido, ip, 0, 0);
    ZeroPlaces(ido, ip, k, 1);
    hide Prod, Idx;
  }

  lemma ZeroPair(x: seq<real>, ido: nat, ip: nat, k: nat, p: nat)
    requires BlockFits(x, ido, ip, k) && ido > 0 && 0 < 2 * p < ip
    ensures TwoCells(x, Prod(ido, ip), k, Idx(0, ido, p), ido, ip, ido - 1, 2 * p - 1, 0, 2 * p, k)
  {
    FrequencySize(ido, ip, 0, p);
    ZeroPlaces(ido, ip, k, p);
    hide Prod, Idx;
  }

  lemma ZeroLast(x: seq<real>, ido: nat, ip: nat, k: nat, p: nat)
    requires BlockFits(x, ido, ip, k) && ido > 0 && 0 < 2 * p == ip
    ensures OneCell(x, Prod(ido, ip), k, Idx(0, ido, p), ido, ip, ido - 1, 2 * p - 1, k)
  {
    FrequencySize(ido, ip, 0, p);
    ZeroPlaces(ido, ip, k, p);
    hide Prod, Idx;
  }

  lemma LowPair(x: seq<real>, ido: nat, ip: nat, k: nat, q: nat, p: nat)
    requires BlockFits(x, ido, ip, k) && 0 < 2 * q < ido && 2 * p < ip
    ensures TwoCells(x, Prod(ido, ip), k, Idx(q, ido, p), ido, ip, 2 * q - 1, 2 * p, 2 * q, 2 * p, k)
  {
    FrequencySize(ido, ip, q, p);
    LowPlaces(ido, ip, k, q, p);
    OneBefore(2 * q, ido, Idx(2 * p, ip, k));
    hide Prod, Idx;
  }

  lemma OneBefore(i: nat, ido: nat, b: nat)
    requires i > 0
    ensures Idx(i, ido, b) == Idx(i - 1, ido, b) + 1
  {}

  lemma HighPair(x: seq<real>, ido: nat, ip: nat, k: nat, q: nat, p: nat)
    requires BlockFits(x, ido, ip, k) && 0 < 2 * q < ido && p < ip <= 2 * p
    ensures MirrorCells(x, Prod(ido, ip), k, Idx(q, ido, p), ido, ip,
                        ido - 2 * q - 1, 2 * (ip - p) - 1, ido - 2 * q, 2 * (ip - p) - 1, k)
  {
    FrequencySize(ido, ip, q, p);
    HighPlaces(ido, ip, k, q, p);
    OneBefore(ido - 2 * q, ido, Idx(2 * (ip - p) - 1, ip, k));
    hide Prod, Idx;
  }

  lemma MiddlePair(x: seq<real>, ido: nat, ip: nat, k: nat, q: nat, p: nat)
    requires BlockFits(x, ido, ip, k) && 0 < 2 * q == ido && 2 * p + 1 < ip
    ensures TwoCells(x, Prod(ido, ip), k, Idx(q, ido, p), ido, ip, ido - 1, 2 * p, 0, 2 * p + 1, k)
  {
    FrequencySize(ido, ip, q, p);
    LowPlaces(ido, ip, k, q, p);
    OneBefore(ido, ido, Idx(2 * p, ip, k));
    assert Idx(ido, ido, Idx(2 * p, ip, k)) == Idx(0, ido, Idx(2 * p + 1, ip, k));
    hide Prod, Idx;
  }

  lemma MiddleLast(x: seq<real>, ido: nat, ip: nat, k: nat, q: nat, p: nat)
    requires BlockFits(x, ido, ip, k) && 0 < 2 * q == ido && 2 * p + 1 == ip
    ensures OneCell(x, Prod(ido, ip), k, Idx(q, ido, p), ido, ip, ido - 1, 2 * p, k)
  {
    FrequencySize(ido, ip, q, p);
    LowPlaces(ido, ip, k, q, p);
    OneBefore(ido, ido, Idx(2 * p, ip, k));
    hide Prod, Idx;
  }

  /** The frequencies of a part, the spectrum of `ido` values at position `k` of row `j`. */
  lemma PartOne(x: seq<real>, ido: nat, l1: nat, k: nat, j: nat)
    requires ido > 0 && Prod(ido, Idx(k, l1, j)) + ido <= |x|
    ensures OneCell(x, ido, Idx(k, l1, j), 0, ido, l1, 0, k, j)
  {}

  lemma PartTwo(x: seq<real>, ido: nat, l1: nat, k: nat, j: nat, q: nat)
    requires 0 < 2 * q < ido && Prod(ido, Idx(k, l1, j)) + ido <= |x|
    ensures TwoCells(x, ido, Idx(k, l1, j), q, ido, l1, 2 * q - 1, k, 2 * q, k, j)
  {}

  lemma PartHalf(x: seq<real>, ido: nat, l1: nat, k: nat, j: nat, q: nat)
    requires 0 < 2 * q == ido && Prod(ido, Idx(k, l1, j)) + ido <= |x|
    ensures OneCell(x, ido, Idx(k, l1, j), q, ido, l1, ido - 1, k, j)
  {}

  lemma PartInside(l1: nat, ip: nat, ido: nat, k: nat, j: nat)
    requires k < l1 && j < ip
    ensures Prod(ido, Idx(k, l1, j)) + ido <= Times3(l1, ip, ido)
  {
    IdxBound(k, l1, j, ip);
    Reassociate3(l1, ip, ido);
    ProdSwap(ido, Prod(l1, ip));
    hide Prod, Idx, Times3;
    BlockInside(ido, Idx(k, l1, j), Prod(l1, ip));
  }

  lemma ColumnInside(l1: nat, ip: nat, ido: nat, k: nat)
    requires k < l1
    ensures Prod(Prod(ido, ip), k) + Prod(ido, ip) <= Times3(l1, ip, ido) == Times3(ip, l1, ido)
  {
    Reassociate3(l1, ip, ido);
    ProdSwap(l1, Prod(ido, ip));
    ProdSwap(l1, ip);
    assert Times3(ip, l1, ido) == Prod(Prod(ip, l1), ido);
    hide Prod, Times3;
    BlockInside(Prod(ido, ip), k, l1);
  }

  /** A pass may store column `k`. */
  predicate Ready(cc: array<real>, ch: array<real>, ido: nat, ip: nat, l1: nat, k: nat) {
    cc != ch && cc.Length == ch.Length == Times3(l1, ip, ido) && k < l1 && ido > 0
  }

  lemma Readiness(cc: array<real>, ch: array<real>, ido: nat, ip: nat, l1: nat, k: nat)
    requires Ready(cc, ch, ido, ip, l1, k)
    ensures cc != ch && cc.Length == ch.Length == Times3(l1, ip, ido) == Times3(ip, l1, ido) && k < l1 && ido > 0
    ensures BlockFits(cc[..], ido, ip, k) && BlockFits(ch[..], ido, ip, k)
  {
    ColumnInside(l1, ip, ido, k);
  }

  /** The literals a pass is compiled with. */
  predicate LiteralsFit(ip: nat, ido: nat, r: Complex) {
    && Fixed(ip)
    && (ip == 4 ==> r.re == r.im)
    && (ip % 2 == 1 ==> ido % 2 == 1)
  }

  lemma LiteralsShape(ip: nat, ido: nat, r: Complex)
    requires LiteralsFit(ip, ido, r)
    ensures Fixed(ip) && (ip == 2 || ip == 3 || ip == 4 || ip == 5) && (ip == 4 ==> r == Complex(r.re, r.re))
    ensures ip % 2 == 1 ==> ido % 2 == 1
  {}

  /** The literals of radix 5: the root of a column and its square. */
  predicate Literals5(r: Complex, tr11: real, ti11: real, tr12: real, ti12: real) {
    r == Complex(tr11, ti11) && Mul(r, r) == Complex(tr12, ti12)
  }

  lemma FiveLiterals(r: Complex, s: Complex)
    requires s == Mul(r, r)
    ensures Literals5(r, r.re, r.im, s.re, s.im)
  {
    hide Mul;
  }

  // ---------- the literals ----------

  lemma ThreePowers(r: Complex)
    ensures Sums.Sum(3, Powers(r)) == Add(Add(Pow(r, 0), Pow(r, 1)), Pow(r, 2))
  {
    TwoTerms(Powers(r));
    assert Sums.Sum(3, Powers(r)) == Add(Sums.Sum(2, Powers(r)), Powers(r)(2));
    hide Pow, Add;
  }

  lemma FivePowers(r: Complex)
    ensures Sums.Sum(5, Powers(r))
         == Add(Add(Add(Pow(r, 0), Pow(r, 2)), Add(Pow(r, 1), Pow(r, 3))), Pow(r, 4))
  {
    FourTerms(Powers(r));
    assert Sums.Sum(5, Powers(r)) == Add(Sums.Sum(4, Powers(r)), Powers(r)(4));
    hide Pow, Add;
  }

  lemma NormAndSquare(r: Complex)
    ensures Mul(r, Conj(r)).re == r.re * r.re + r.im * r.im
    ensures Mul(r, r) == Complex(r.re * r.re - r.im * r.im, 2.0 * (r.re * r.im))
  {}

  /** taur is -1/2, and taui the positive root of 3/4. */
  lemma LiteralsOfRadix3(turn: real -> Complex)
    requires SinCos.Circle(turn)
    ensures var r := SinCos.Root(turn)(3); r.re == -0.5 && r.im > 0.0 && r.im * r.im == 0.75
  {
    var r := SinCos.Root(turn)(3);
    RootOfCircle(turn, 3);
    SinCos.EntryAbove(turn, 1, 3);
    assert Pow(r, 1) != ONE && Mul(r, Conj(r)) == ONE && Pow(r, 3) == ONE by { hide Pow, Mul; }
    assert r == SinCos.Entry(turn, 1, 3);
    hide *;
    SmallPowers(r);
    MirrorPower(r, 3, 1, 2, 1);
    PowersCancel(r, 3);
    ThreePowers(r);
    NormAndSquare(r);
    ConjSum3(r);
  }

  lemma RootOfCircle(turn: real -> Complex, n: nat)
    requires SinCos.Circle(turn) && n > 0
    ensures PrincipalRoot(SinCos.Root(turn)(n), n) && UnitRoot(SinCos.Root(turn)(n), n)
  {
    SinCos.RootIsPrincipal(turn, n);
    hide SinCos.Circle;
  }

  lemma ConjSum3(r: Complex)
    ensures Add(Add(ONE, r), Conj(r)).re == 1.0 + 2.0 * r.re && ZERO.re == 0.0 && ONE.re == 1.0
  {}

  lemma RealPartsOfFive(r: Complex, s: Complex)
    requires UnitRoot(r, 5) && s == Mul(r, r)
    ensures 1.0 + 2.0 * r.re + 2.0 * s.re == 0.0 && Mul(r, Conj(r)).re == 1.0
  {
    assert Pow(r, 1) != ONE && Mul(r, Conj(r)) == ONE && Pow(r, 5) == ONE;
    hide *;
    SmallPowers(r);
    MirrorPower(r, 5, 1, 4, 1);
    MirrorPower(r, 5, 2, 3, 1);
    PowersCancel(r, 5);
    FivePowers(r);
    ConjSum5(r, Pow(r, 2));
  }

  /** tr11 is the positive root of 4 c c + 2 c = 1, tr12 the other one, and ti11 and ti12 are the
      positive sines that go with them. */
  lemma LiteralsOfRadix5(turn: real -> Complex, tr11: real, ti11: real, tr12: real, ti12: real)
    requires SinCos.Circle(turn) && Literals5(SinCos.Root(turn)(5), tr11, ti11, tr12, ti12)
    ensures tr11 > 0.0 && 4.0 * (tr11 * tr11) + 2.0 * tr11 == 1.0 && tr12 == -0.5 - tr11
    ensures ti11 > 0.0 && ti11 * ti11 == 1.0 - tr11 * tr11
    ensures ti12 > 0.0 && ti12 == 2.0 * (tr11 * ti11)
  {
    var r := SinCos.Root(turn)(5);
    RootOfCircle(turn, 5);
    FifthsAbove(turn);
    RealPartsOfFive(r, Complex(tr12, ti12));
    NormAndSquare(r);
    assert Mul(r, r) == Complex(tr12, ti12) && r == Complex(tr11, ti11);
    hide *;
    CosinePositive(tr11, ti11, ti12);
  }

  lemma FifthsAbove(turn: real -> Complex)
    requires SinCos.Circle(turn)
    ensures var r := SinCos.Root(turn)(5); r.im > 0.0 && Mul(r, r).im > 0.0
  {
    var r := SinCos.Root(turn)(5);
    SinCos.EntryAbove(turn, 1, 5);
    SinCos.EntryAbove(turn, 2, 5);
    SinCos.EntryIsPower(turn, 2, 5);
    SmallPowers(r);
    hide SinCos.Circle, Mul, Pow;
  }

  lemma CosinePositive(c: real, s: real, t: real)
    requires s > 0.0 && t > 0.0 && t == 2.0 * (c * s)
    ensures c > 0.0
  {}

  /** hsqt2 is the positive root of 1/2. */
  lemma LiteralOfRadix4(turn: real -> Complex)
    requires SinCos.Circle(turn)
    ensures var e := SinCos.Root(turn)(8); e == Complex(e.re, e.re) && e.re > 0.0 && e.re * e.re == 0.5
  {
    var e := SinCos.Root(turn)(8);
    RootOfCircle(turn, 8);
    SinCos.EntryAbove(turn, 1, 8);
    SmallPowers(e);
    assert Mul(e, e) == I && Mul(e, Conj(e)) == ONE by { hide Mul, Pow, Conj; }
    EqualParts(e);
    NormAndSquare(e);
    hide Mul, Pow, Conj, SinCos.Circle;
  }

  /** Half a quarter turn has equal parts. */
  lemma EqualParts(e: Complex)
    requires Mul(e, e) == I && Mul(e, Conj(e)) == ONE
    ensures e == Complex(e.re, e.re)
  {
    assert (e.re - e.im) * (e.re + e.im) == 0.0;
    if e.re == -e.im {
      assert e.re * e.im == -(e.re * e.re);
      assert e.re * e.re >= 0.0;
    }
  }

  lemma ConjSum5(r: Complex, s: Complex)
    ensures Add(Add(Add(ONE, s), Add(r, Conj(s))), Conj(r)).re == 1.0 + 2.0 * r.re + 2.0 * s.re
    ensures ZERO.re == 0.0 && ONE.re == 1.0
  {}
}
