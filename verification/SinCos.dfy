/** The sine and cosine table: an octant by rotations, the rest by reflections. */
module SinCos {
  import opened Complexes
  import opened Dft
  import opened Factorize

  /** `turn(a)` stands for exp(pi i a): the addition law, a quarter turn, the unit circle, and a first
      half above the axis. */
  ghost predicate Circle(turn: real -> Complex) {
    && (forall a, b :: AddsTurns(turn, a, b))
    && turn(0.5) == I
    && (forall a :: OnCircle(turn, a))
    && (forall a :: 0.0 < a < 1.0 ==> turn(a).im > 0.0)
  }

  ghost predicate AddsTurns(turn: real -> Complex, a: real, b: real) { turn(a + b) == Mul(turn(a), turn(b)) }

  ghost predicate OnCircle(turn: real -> Complex, a: real) { Mul(turn(a), Conj(turn(a))) == ONE }

  // ---------- reflections ----------

  lemma NoTurn(turn: real -> Complex)
    requires Circle(turn)
    ensures turn(0.0) == ONE
  {
    var z := turn(0.0);
    assert AddsTurns(turn, 0.0, 0.0) && OnCircle(turn, 0.0);
    assert 0.0 + 0.0 == 0.0;
    hide *;
    MulAssoc(z, z, Conj(z));
    MulOne(z);
  }

  lemma TurnBack(turn: real -> Complex, a: real)
    requires Circle(turn)
    ensures turn(-a) == Conj(turn(a))
  {
    NoTurn(turn);
    assert AddsTurns(turn, -a, a) && OnCircle(turn, a);
    assert -a + a == 0.0;
    var z, y := turn(a), turn(-a);
    hide *;
    MulAssoc(y, z, Conj(z));
    MulOne(y);
    MulOne(Conj(z));
  }

  /** Sine and cosine change places. */
  function Swap(z: Complex): Complex { Complex(z.im, z.re) }

  lemma TimesI(z: Complex)
    ensures Mul(I, z) == Complex(-z.im, z.re)
  {}

  lemma TimesMinusOne(z: Complex)
    ensures Mul(Neg(ONE), z) == Neg(z)
  {}

  lemma AddTurns(turn: real -> Complex, a: real, b: real)
    requires Circle(turn)
    ensures turn(a + b) == Mul(turn(a), turn(b))
  {
    assert AddsTurns(turn, a, b);
    hide Mul;
  }

  lemma HalfTurn(turn: real -> Complex)
    requires Circle(turn)
    ensures turn(1.0) == Neg(ONE) && turn(2.0) == ONE
  {
    AddTurns(turn, 0.5, 0.5);
    AddTurns(turn, 1.0, 1.0);
    TimesI(I);
    TimesMinusOne(Neg(ONE));
    hide Mul, Circle;
  }

  lemma Reflections(turn: real -> Complex, a: real)
    requires Circle(turn)
    ensures turn(0.5 - a) == Swap(turn(a)) && turn(0.5 + a) == Complex(-turn(a).im, turn(a).re)
    ensures turn(1.0 - a) == Complex(-turn(a).re, turn(a).im) && turn(1.0 + a) == Neg(turn(a))
    ensures turn(2.0 - a) == Conj(turn(a))
  {
    var z := turn(a);
    TurnBack(turn, a);
    HalfTurn(turn);
    TimesI(z);
    TimesI(Conj(z));
    TimesMinusOne(z);
    TimesMinusOne(Conj(z));
    MulOne(Conj(z));
    AddTurns(turn, 0.5, a);
    AddTurns(turn, 0.5, -a);
    AddTurns(turn, 1.0, a);
    AddTurns(turn, 1.0, -a);
    AddTurns(turn, 2.0, -a);
    assert turn(0.5) == I;
    hide Mul, Circle;
    assert 0.5 + -a == 0.5 - a && 1.0 + -a == 1.0 - a && 2.0 + -a == 2.0 - a;
  }

  // ---------- angles ----------

  function Arg(a: int, d: nat): real
    requires d > 0
  {
    a as real / d as real
  }

  lemma ArgIs(a: int, d: nat, x: real)
    requires d > 0 && x * (d as real) == a as real
    ensures Arg(a, d) == x
  {}

  lemma ArgTimes(a: int, d: nat)
    requires d > 0
    ensures Arg(a, d) * (d as real) == a as real
  {}

  lemma ArgAdd(a: int, b: int, d: nat)
    requires d > 0
    ensures Arg(a + b, d) == Arg(a, d) + Arg(b, d) && Arg(a - b, d) == Arg(a, d) - Arg(b, d)
  {
    ArgTimes(a, d);
    ArgTimes(b, d);
    var x, y, r := Arg(a, d), Arg(b, d), d as real;
    assert (x + y) * r == x * r + y * r && (x - y) * r == x * r - y * r;
    ArgIs(a + b, d, x + y);
    ArgIs(a - b, d, x - y);
  }

  lemma ArgScale(c: nat, a: int, d: nat)
    requires d > 0 && c > 0
    ensures c * d > 0 && Arg(c * a, c * d) == Arg(a, d)
  {
    ArgTimes(a, d);
    var x := Arg(a, d);
    assert x * ((c * d) as real) == (c as real) * (x * (d as real));
    ArgIs(c * a, c * d, x);
  }

  lemma ArgWhole(d: nat)
    requires d > 0
    ensures Arg(d, d) == 1.0 && Arg(2 * d, d) == 2.0 && Arg(0, d) == 0.0
    ensures Arg(d, 2 * d) == 0.5
  {
    ArgIs(d, d, 1.0);
    ArgIs(2 * d, d, 2.0);
    ArgIs(0, d, 0.0);
    ArgIs(d, 2 * d, 0.5);
  }

  /** Entry `k` of the table for `n`. */
  function Entry(turn: real -> Complex, k: int, n: nat): Complex
    requires n > 0
  {
    turn(Arg(2 * k, n))
  }

  lemma EntryScale(turn: real -> Complex, k: int, n: nat, c: nat)
    requires n > 0 && c > 0
    ensures c * n > 0 && Entry(turn, c * k, c * n) == Entry(turn, k, n)
  {
    assert 2 * (c * k) == c * (2 * k);
    ArgScale(c, 2 * k, n);
  }

  /** Entries reflected in, and turned by, an eighth, a quarter and a half of the circle. */
  lemma QuarterEntries(turn: real -> Complex, k: int, q: nat)
    requires Circle(turn) && q > 0
    ensures Entry(turn, q - k, 4 * q) == Swap(Entry(turn, k, 4 * q))
    ensures Entry(turn, q + k, 4 * q) == Complex(-Entry(turn, k, 4 * q).im, Entry(turn, k, 4 * q).re)
  {
    var n := 4 * q;
    ArgWhole(2 * q);
    ArgAdd(2 * q, 2 * k, n);
    Reflections(turn, Arg(2 * k, n));
    hide Arg, Circle;
  }

  lemma HalfEntries(turn: real -> Complex, k: int, h: nat)
    requires Circle(turn) && h > 0
    ensures Entry(turn, h - k, 2 * h) == Complex(-Entry(turn, k, 2 * h).re, Entry(turn, k, 2 * h).im)
    ensures Entry(turn, h + k, 2 * h) == Neg(Entry(turn, k, 2 * h))
  {
    var n := 2 * h;
    ArgWhole(n);
    ArgAdd(n, 2 * k, n);
    Reflections(turn, Arg(2 * k, n));
    hide Arg, Circle;
  }

  lemma WholeEntries(turn: real -> Complex, k: int, n: nat)
    requires Circle(turn) && n > 0
    ensures Entry(turn, n - k, n) == Conj(Entry(turn, k, n)) && Entry(turn, 0, n) == ONE
  {
    ArgWhole(n);
    ArgAdd(2 * n, 2 * k, n);
    Reflections(turn, Arg(2 * k, n));
    NoTurn(turn);
    hide Arg, Circle;
  }

  // ---------- the table in memory ----------

  /** The two reals at `at` are the parts of `v`. */
  ghost predicate Holds(res: array<real>, at: int, v: Complex)
    reads res
  {
    0 <= at < res.Length - 1 && res[at] == v.re && res[at + 1] == v.im
  }

  /** Entries `from` up to `to` of the table for `n` stand at `off`. */
  ghost predicate Table(turn: real -> Complex, n: nat, res: array<real>, off: nat, from: nat, to: nat)
    requires n > 0
    reads res
  {
    forall i: nat :: from <= i < to ==> Holds(res, off + 2 * i, Entry(turn, i, n))
  }

  /** my_sincosm1pi, exact: it is only right for arguments up to a quarter. */
  method SinCosMinusOne(turn: real -> Complex, a: real) returns (c: real, s: real)
    requires -0.25 <= a <= 0.25
    ensures c == turn(a).re - 1.0 && s == turn(a).im
  {
    c, s := turn(a).re - 1.0, turn(a).im;
  }

  function OctantSize(den: nat): nat { (den + 4) / 8 }

  lemma InOctant(i: nat, den: nat)
    requires den > 0 && i < OctantSize(den)
    ensures 0.0 <= Arg(2 * i, den) <= 0.25
  {
    var x, d := Arg(2 * i, den), den as real;
    ArgTimes(2 * i, den);
    hide Arg;
    var t := (2 * i) as real;
    assert 8 * i <= den;
    assert 4.0 * t == (8 * i) as real <= d;
    OrderOfProducts(x, 0.25, d, t, 0.25 * d);
    OrderOfProducts(0.0, x, d, 0.0, t);
  }

  lemma OrderOfProducts(x: real, y: real, d: real, p: real, q: real)
    requires d > 0.0 && x * d == p && y * d == q && p <= q
    ensures x <= y
  {}

  /** What is known of an entry that still lacks the one added to its cosine. */
  ghost predicate Short(turn: real -> Complex, den: nat, res: array<real>, off: nat, i: nat)
    requires den > 0
    reads res
  {
    Holds(res, off + 2 * i, Complex(Entry(turn, i, den).re - 1.0, Entry(turn, i, den).im))
  }

  /** Only `res[off..off + len]` may differ. */
  ghost predicate Outside(now: array<real>, was: seq<real>, off: nat, len: nat)
    reads now
  {
    now.Length == |was| && forall k :: 0 <= k < |was| && !(off <= k < off + len) ==> now[k] == was[k]
  }

  /** The rotation formula on values that lack their ones. */
  lemma RotationFormula(cs: Complex, csx: Complex)
    ensures var a, b := Complex(cs.re + 1.0, cs.im), Complex(csx.re + 1.0, csx.im);
            Mul(a, b) == Complex(((cs.re * csx.re - cs.im * csx.im + cs.re) + csx.re) + 1.0,
                                 (cs.re * csx.im + cs.im * csx.re) + cs.im + csx.im)
  {}

  lemma EntrySum(turn: real -> Complex, a: nat, b: nat, den: nat)
    requires Circle(turn) && den > 0
    ensures Entry(turn, a + b, den) == Mul(Entry(turn, a, den), Entry(turn, b, den))
  {
    ArgAdd(2 * a, 2 * b, den);
    AddTurns(turn, Arg(2 * a, den), Arg(2 * b, den));
    assert 2 * (a + b) == 2 * a + 2 * b;
    hide Arg, Circle, Mul;
  }

  /** The state of the octant: entry 0, the short ones below `l1`, and whole ones from `l1` to `done`. */
  ghost predicate OctantUnderway(turn: real -> Complex, den: nat, res: array<real>, off: nat, l1: nat, done: nat,
                                 was: seq<real>)
    requires den > 0
    reads res
  {
    && Holds(res, off, ONE) && (forall i: nat :: 0 < i < l1 ==> Short(turn, den, res, off, i))
    && Table(turn, den, res, off, l1, done) && Outside(res, was, off, 2 * OctantSize(den))
  }

  method StorePair(res: array<real>, at: nat, v: Complex)
    requires at < res.Length - 1
    modifies res
    ensures Holds(res, at, v)
    ensures forall k :: 0 <= k < res.Length && k != at && k != at + 1 ==> res[k] == old(res[k])
  {
    res[at] := v.re;
    res[at + 1] := v.im;
  }

  /** One more entry that lacks its one. */
  method PutShort(turn: real -> Complex, den: nat, res: array<real>, off: nat, i: nat, v: Complex, ghost was: seq<real>)
    requires den > 0 && off + 2 * OctantSize(den) <= res.Length && 0 < i < OctantSize(den)
    requires OctantUnderway(turn, den, res, off, i, i, was) &&
             v == Complex(Entry(turn, i, den).re - 1.0, Entry(turn, i, den).im)
    modifies res
    ensures OctantUnderway(turn, den, res, off, i + 1, i + 1, was)
  {
    hide Entry, OctantSize;
    StorePair(res, off + 2 * i, v);
    forall k: nat | 0 < k < i + 1
      ensures Short(turn, den, res, off, k)
    {
      if k < i {
        assert old(Short(turn, den, res, off, k));
      }
    }
  }

  /** The first loop of calc_first_octant. */
  method ShortEntries(turn: real -> Complex, den: nat, res: array<real>, off: nat, l1: nat)
    requires Circle(turn) && den > 0 && 0 < l1 <= OctantSize(den) && off + 2 * OctantSize(den) <= res.Length &&
             Holds(res, off, ONE)
    modifies res
    ensures OctantUnderway(turn, den, res, off, l1, l1, old(res[..]))
  {
    ghost var was := res[..];
    assert OctantUnderway(turn, den, res, off, 1, 1, was) by { hide Entry, OctantSize; }
    hide Circle, Arg, OctantUnderway, Entry, OctantSize;
    for i := 1 to l1
      invariant OctantUnderway(turn, den, res, off, i, i, was)
    {
      InOctant(i, den);
      EntryIsTurn(turn, i, den);
      var c, s := SinCosMinusOne(turn, Arg(2 * i, den));
      PutShort(turn, den, res, off, i, Complex(c, s), was);
    }
  }

  /** The next whole entry is stored. */
  method PutEntry(turn: real -> Complex, den: nat, res: array<real>, off: nat, k: nat, v: Complex, ghost l1: nat,
                  ghost was: seq<real>)
    requires den > 0 && off + 2 * OctantSize(den) <= res.Length && 0 < l1 <= k < OctantSize(den)
    requires OctantUnderway(turn, den, res, off, l1, k, was) && v == Entry(turn, k, den)
    modifies res
    ensures OctantUnderway(turn, den, res, off, l1, k + 1, was)
  {
    hide Entry, OctantSize;
    StorePair(res, off + 2 * k, v);
    forall i: nat | 0 < i < l1
      ensures Short(turn, den, res, off, i)
    {
      assert old(Short(turn, den, res, off, i));
    }
  }

  /** One more entry of a block, out of the block's first and a short one. */
  method RotateEntry(turn: real -> Complex, den: nat, res: array<real>, off: nat, l1: nat, start: nat, i: nat,
                     cs: Complex, ghost was: seq<real>)
    requires Circle(turn) && den > 0 && off + 2 * OctantSize(den) <= res.Length
    requires 0 < i < l1 <= start && start + i < OctantSize(den)
    requires OctantUnderway(turn, den, res, off, l1, start + i, was)
    requires cs == Complex(Entry(turn, start, den).re - 1.0, Entry(turn, start, den).im)
    modifies res
    ensures OctantUnderway(turn, den, res, off, l1, start + i + 1, was)
  {
    EntrySum(turn, start, i, den);
    hide Circle, Entry, Mul, OctantSize;
    assert Short(turn, den, res, off, i);
    var csx := Complex(res[off + 2 * i], res[off + 2 * i + 1]);
    RotationFormula(cs, csx);
    var v := Complex(((cs.re * csx.re - cs.im * csx.im + cs.re) + csx.re) + 1.0,
                     (cs.re * csx.im + cs.im * csx.re) + cs.im + csx.im);
    assert v == Entry(turn, start + i, den);
    hide *;
    PutEntry(turn, den, res, off, start + i, v, l1, was);
  }

  /** One block: its first entry directly, the others by rotation. */
  method RotateBlock(turn: real -> Complex, den: nat, res: array<real>, off: nat, l1: nat, start: nat,
                     ghost was: seq<real>) returns (next: nat)
    requires Circle(turn) && den > 0 && off + 2 * OctantSize(den) <= res.Length
    requires 0 < l1 <= start < OctantSize(den) && OctantUnderway(turn, den, res, off, l1, start, was)
    modifies res
    ensures next == start + l1 && OctantUnderway(turn, den, res, off, l1, if next <= OctantSize(den) then next
                                                 else OctantSize(den), was)
  {
    hide Circle, Entry, OctantSize, OctantUnderway;
    var n := OctantSize(den);
    InOctant(start, den);
    var c, s := SinCosMinusOne(turn, Arg(2 * start, den));
    EntryIsTurn(turn, start, den);
    PutEntry(turn, den, res, off, start, Complex(c + 1.0, s), l1, was);
    var end := if start + l1 > n then n - start else l1;
    for i := 1 to end
      invariant OctantUnderway(turn, den, res, off, l1, start + i, was)
    {
      RotateEntry(turn, den, res, off, l1, start, i, Complex(c, s), was);
    }
    next := start + l1;
  }

  lemma EntryIsTurn(turn: real -> Complex, k: int, n: nat)
    requires n > 0
    ensures Entry(turn, k, n) == turn(Arg(2 * k, n))
  {}

  /** The last loop of calc_first_octant. */
  method AddOnes(turn: real -> Complex, den: nat, res: array<real>, off: nat, l1: nat, ghost was: seq<real>)
    requires den > 0 && 0 < l1 <= OctantSize(den) && off + 2 * OctantSize(den) <= res.Length
    requires OctantUnderway(turn, den, res, off, l1, OctantSize(den), was) && Entry(turn, 0, den) == ONE
    modifies res
    ensures Table(turn, den, res, off, 0, OctantSize(den)) && Outside(res, was, off, 2 * OctantSize(den))
  {
    hide Entry, OctantSize;
    for i := 1 to l1
      invariant Table(turn, den, res, off, 0, i) && Table(turn, den, res, off, l1, OctantSize(den))
      invariant forall k: nat :: i <= k < l1 ==> Short(turn, den, res, off, k)
      invariant Outside(res, was, off, 2 * OctantSize(den))
    {
      assert Short(turn, den, res, off, i);
      label before:
      StorePair(res, off + 2 * i, Complex(res[off + 2 * i] + 1.0, res[off + 2 * i + 1]));
      forall k: nat | i + 1 <= k < l1
        ensures Short(turn, den, res, off, k)
      {
        assert old@before(Short(turn, den, res, off, k));
      }
    }
  }

  lemma SqrtFits(n: nat)
    requires n > 0
    ensures 0 < ISqrt(n) <= n
  {
    var s := ISqrt(n);
    assert s * s >= s;
  }

  /** calc_first_octant: the entries whose angle is at most an eighth of a turn. */
  method CalcFirstOctant(turn: real -> Complex, den: nat, res: array<real>, off: nat)
    requires Circle(turn) && den > 0 && off + 2 * OctantSize(den) <= res.Length
    modifies res
    ensures Table(turn, den, res, off, 0, OctantSize(den)) && Outside(res, old(res[..]), off, 2 * OctantSize(den))
  {
    var n := OctantSize(den);
    if n == 0 {
      return;
    }
    WholeEntries(turn, 0, den);
    StorePair(res, off, ONE);
    if n == 1 {
      return;
    }
    SqrtFits(n);
    hide Circle, Entry, ISqrt;
    var l1 := ISqrt(n);
    ShortEntries(turn, den, res, off, l1);
    var start := l1;
    while start < n
      invariant l1 <= start && OctantUnderway(turn, den, res, off, l1, if start <= n then start else n, old(res[..]))
    {
      start := RotateBlock(turn, den, res, off, l1, start, old(res[..]));
    }
    AddOnes(turn, den, res, off, l1, old(res[..]));
  }

  // ---------- the first half ----------

  /** The octant of the doubled circle at `n`, and the quadrant made of it so far. */
  ghost predicate QuadrantUnderway(turn: real -> Complex, n: nat, res: array<real>, ndone: nat, front: nat, back: nat)
    requires n > 0
    reads res
  {
    && Table(turn, 2 * n, res, n, 0, ndone) && Table(turn, n, res, 0, 0, front) && Table(turn, n, res, 0, back, ndone)
  }

  /** An entry joins those at the front, or those at the back, away from the octant. */
  method PutQuadrant(turn: real -> Complex, n: nat, res: array<real>, at: nat, v: Complex,
                     ghost ndone: nat, ghost front: nat, ghost back: nat, ghost k: nat)
    requires n > 0 && res.Length == 2 * n && 2 * ndone <= n && QuadrantUnderway(turn, n, res, ndone, front, back)
    requires at == 2 * k && front <= k < back <= ndone && (k == front || k == back - 1) && v == Entry(turn, k, n)
    modifies res
    ensures QuadrantUnderway(turn, n, res, ndone, if k == front then front + 1 else front, if k == back - 1 then k
                             else back)
  {
    hide Entry;
    StorePair(res, at, v);
    forall i: nat | i < ndone
      ensures Holds(res, n + 2 * i, Entry(turn, i, 2 * n))
    {
      assert old(Holds(res, n + 2 * i, Entry(turn, i, 2 * n)));
    }
    forall i: nat | (i < front || back <= i < ndone) || i == k
      ensures Holds(res, 0 + 2 * i, Entry(turn, i, n))
    {
      if i != k {
        assert old(Holds(res, 0 + 2 * i, Entry(turn, i, n)));
      }
    }
  }

  lemma OctantEntry(turn: real -> Complex, n: nat, res: array<real>, ndone: nat, front: nat, back: nat, i: nat)
    requires n > 0 && QuadrantUnderway(turn, n, res, ndone, front, back) && i < ndone
    ensures Holds(res, n + 2 * i, Entry(turn, i, 2 * n))
  {}

  /** One turn of the loop: an even entry to the front, an odd one reflected to the back. */
  method TwoEntries(turn: real -> Complex, n: nat, res: array<real>, ndone: nat, i: nat, idx1: nat, idx2: nat)
    requires Circle(turn) && n > 0 && n % 4 == 2 && res.Length == 2 * n && ndone == (n + 2) / 4 && i % 2 == 0 &&
             i + 1 < ndone
    requires QuadrantUnderway(turn, n, res, ndone, i / 2, ndone - i / 2) && idx1 == i && idx2 == 2 * ndone - 2 - i
    modifies res
    ensures QuadrantUnderway(turn, n, res, ndone, i / 2 + 1, ndone - i / 2 - 1)
  {
    ghost var k := i / 2;
    QuadrantEntries(turn, n, k);
    OctantEntry(turn, n, res, ndone, k, ndone - k, i);
    hide Circle, Entry, QuadrantUnderway;
    PutQuadrant(turn, n, res, idx1, Complex(res[n + 2 * i], res[n + 2 * i + 1]), ndone, k, ndone - k, k);
    OctantEntry(turn, n, res, ndone, k + 1, ndone - k, i + 1);
    PutQuadrant(turn, n, res, idx2, Complex(res[n + 2 * i + 3], res[n + 2 * i + 2]), ndone, k + 1, ndone - k,
                ndone - k - 1);
  }

  /** calc_first_quadrant, for a length that two divides and four does not. The octant of the
      doubled circle lies behind the entries that are made of it. */
  method CalcFirstQuadrant(turn: real -> Complex, n: nat, res: array<real>)
    requires Circle(turn) && n > 0 && n % 4 == 2 && res.Length == 2 * n
    modifies res
    ensures Table(turn, n, res, 0, 0, (n + 2) / 4)
  {
    CalcFirstOctant(turn, 2 * n, res, n);
    var ndone := (n + 2) / 4;
    QuadrantStarts(turn, n, res, ndone);
    hide Circle, Entry, QuadrantUnderway, OctantSize, Table, Outside;
    var i, idx1, idx2 := 0, 0, 2 * ndone - 2;
    while i + 1 < ndone
      invariant 0 <= i <= ndone && i % 2 == 0 && idx1 == i && idx2 == 2 * ndone - 2 - i
      invariant QuadrantUnderway(turn, n, res, ndone, i / 2, ndone - i / 2)
    {
      TwoEntries(turn, n, res, ndone, i, idx1, idx2);
      i, idx1, idx2 := i + 2, idx1 + 2, idx2 - 2;
    }
    LastEntry(turn, n, res, ndone, i, idx1);
  }

  /** What follows the loop: the middle entry, if there is one. */
  method LastEntry(turn: real -> Complex, n: nat, res: array<real>, ndone: nat, i: nat, idx1: nat)
    requires Circle(turn) && n > 0 && n % 4 == 2 && res.Length == 2 * n && ndone == (n + 2) / 4
    requires i <= ndone <= i + 1 && i % 2 == 0 && idx1 == i
    requires QuadrantUnderway(turn, n, res, ndone, i / 2, ndone - i / 2)
    modifies res
    ensures Table(turn, n, res, 0, 0, ndone)
  {
    ghost var k := i / 2;
    QuadrantEntries(turn, n, k);
    hide Circle, Entry, QuadrantUnderway, Table;
    if i != ndone {
      OctantEntry(turn, n, res, ndone, k, ndone - k, i);
      PutQuadrant(turn, n, res, idx1, Complex(res[n + 2 * i], res[n + 2 * i + 1]), ndone, k, ndone - k, k);
      k := k + 1;
    }
    QuadrantEnds(turn, n, res, ndone, k);
  }

  lemma QuadrantStarts(turn: real -> Complex, n: nat, res: array<real>, ndone: nat)
    requires n % 4 == 2 && ndone == (n + 2) / 4 && Table(turn, 2 * n, res, n, 0, OctantSize(2 * n))
    ensures QuadrantUnderway(turn, n, res, ndone, 0, ndone) && 2 * ndone <= n && ndone > 0
  {
    hide Entry;
  }

  lemma QuadrantEnds(turn: real -> Complex, n: nat, res: array<real>, ndone: nat, k: nat)
    requires n > 0 && k <= ndone && 2 * k >= ndone
    requires QuadrantUnderway(turn, n, res, ndone, k, ndone - k) ||
             (2 * k == ndone + 1 && QuadrantUnderway(turn, n, res, ndone, k, k - 1))
    ensures Table(turn, n, res, 0, 0, ndone)
  {
    hide Entry;
  }

  /** An even entry of the doubled circle, and an odd one reflected. */
  lemma QuadrantEntries(turn: real -> Complex, n: nat, j: nat)
    requires Circle(turn) && n > 0 && n % 4 == 2
    ensures Entry(turn, 2 * j, 2 * n) == Entry(turn, j, n)
    ensures Swap(Entry(turn, 2 * j + 1, 2 * n)) == Entry(turn, (n + 2) / 4 - 1 - j, n)
  {
    hide Circle, Entry;
    var ndone := (n + 2) / 4;
    EntryScale(turn, j, n, 2);
    EntryScale(turn, ndone - 1 - j, n, 2);
    QuarterEntries(turn, 2 * j + 1, n / 2);
    assert 4 * (n / 2) == 2 * n && n / 2 - (2 * j + 1) == 2 * (ndone - 1 - j);
  }

  // ---------- the first half of an odd circle ----------

  /** Where entry `i` of the table for `n` is found in the octant of four times the circle. */
  lemma OddEntry(turn: real -> Complex, n: nat, i: int)
    requires Circle(turn) && n > 0
    ensures Entry(turn, i, n) == Entry(turn, 4 * i, 4 * n)
    ensures Entry(turn, i, n) == Swap(Entry(turn, n - 4 * i, 4 * n))
    ensures Entry(turn, i, n) == Complex(-Entry(turn, 4 * i - n, 4 * n).im, Entry(turn, 4 * i - n, 4 * n).re)
    ensures Entry(turn, i, n) == Complex(-Entry(turn, 2 * n - 4 * i, 4 * n).re, Entry(turn, 2 * n - 4 * i, 4 * n).im)
  {
    EntryScale(turn, i, n, 4);
    QuarterEntries(turn, n - 4 * i, n);
    QuarterEntries(turn, 4 * i - n, n);
    HalfEntries(turn, 2 * n - 4 * i, 2 * n);
    hide Entry;
  }

  /** The octant behind, but for its first entry, and the table in front of it as far as `i`. */
  ghost predicate HalfUnderway(turn: real -> Complex, n: nat, res: array<real>, i: nat)
    requires n > 0
    reads res
  {
    && Table(turn, 4 * n, res, n - 1, 1, (n + 1) / 2) && Table(turn, n, res, 0, 0, i)
    && (i == 0 ==> Holds(res, n - 1, Entry(turn, 0, 4 * n)))
  }

  /** The next entry is stored; it is too far in front to spoil what is read later. */
  method PutHalf(turn: real -> Complex, n: nat, res: array<real>, i: nat, re: real, im: real)
    requires n > 0 && n % 2 == 1 && res.Length == 2 * n && i < (n + 1) / 2
    requires HalfUnderway(turn, n, res, i) && Entry(turn, i, n) == Complex(re, im)
    modifies res
    ensures HalfUnderway(turn, n, res, i + 1)
  {
    hide Entry;
    StorePair(res, 2 * i, Complex(re, im));
    forall k: nat | 1 <= k < (n + 1) / 2
      ensures Holds(res, n - 1 + 2 * k, Entry(turn, k, 4 * n))
    {
      assert old(Holds(res, n - 1 + 2 * k, Entry(turn, k, 4 * n)));
    }
    forall k: nat | 0 <= k < i + 1
      ensures Holds(res, 0 + 2 * k, Entry(turn, k, n))
    {
      if k < i {
        assert old(Holds(res, 0 + 2 * k, Entry(turn, k, n)));
      }
    }
  }

  lemma OctantRead(turn: real -> Complex, n: nat, res: array<real>, i: nat, x: nat)
    requires n > 0 && HalfUnderway(turn, n, res, i) && x < (n + 1) / 2 && (x > 0 || i == 0)
    ensures Holds(res, n - 1 + 2 * x, Entry(turn, x, 4 * n))
  {
    hide Entry;
  }

  lemma HalfStarts(turn: real -> Complex, n: nat, res: array<real>)
    requires n > 0 && Table(turn, 4 * n, res, n - 1, 0, (n + 1) / 2)
    ensures HalfUnderway(turn, n, res, 0)
  {
    hide Entry;
    assert Holds(res, n - 1 + 2 * 0, Entry(turn, 0, 4 * n));
  }

  lemma HalfEnds(turn: real -> Complex, n: nat, res: array<real>, i: nat)
    requires n > 0 && HalfUnderway(turn, n, res, i)
    ensures Table(turn, n, res, 0, 0, i)
  {}

  /** The first two loops of calc_first_half, for the first quarter. */
  method FirstTwoOctants(turn: real -> Complex, n: nat, res: array<real>) returns (i: nat)
    requires Circle(turn) && n % 2 == 1 && res.Length == 2 * n && HalfUnderway(turn, n, res, 0)
    modifies res
    ensures i <= (n + 1) / 2 && 4 * i > n && HalfUnderway(turn, n, res, i)
  {
    hide Circle, Entry, Table, HalfUnderway;
    var ndone, p, i4 := (n + 1) / 2, n - 1, 0;
    i := 0;
    while i4 <= n - i4
      invariant i4 == 4 * i && 0 <= i <= ndone && HalfUnderway(turn, n, res, i)
    {
      OctantRead(turn, n, res, i, i4);
      OddEntry(turn, n, i);
      PutHalf(turn, n, res, i, res[p + 2 * i4], res[p + 2 * i4 + 1]);
      i, i4 := i + 1, i4 + 4;
    }
    while i4 - n <= 0
      invariant i4 == 4 * i && 2 * i4 > n && 0 <= i <= ndone && HalfUnderway(turn, n, res, i)
    {
      var xm := n - i4;
      OctantRead(turn, n, res, i, xm);
      OddEntry(turn, n, i);
      PutHalf(turn, n, res, i, res[p + 2 * xm + 1], res[p + 2 * xm]);
      i, i4 := i + 1, i4 + 4;
    }
  }

  /** The last two loops of calc_first_half, for the second quarter. */
  method LastTwoOctants(turn: real -> Complex, n: nat, res: array<real>, i0: nat, i40: nat) returns (i: nat)
    requires Circle(turn) && n % 2 == 1 && res.Length == 2 * n && HalfUnderway(turn, n, res, i0)
    requires i40 == 4 * i0 > n && i0 <= (n + 1) / 2
    modifies res
    ensures i == (n + 1) / 2 && HalfUnderway(turn, n, res, i)
  {
    hide Circle, Entry, Table, HalfUnderway;
    var ndone, p, i4 := (n + 1) / 2, n - 1, i40;
    i := i0;
    while i4 <= 3 * n - i4
      invariant i4 == 4 * i && i4 > n && 0 <= i <= ndone && HalfUnderway(turn, n, res, i)
    {
      var xm := i4 - n;
      OctantRead(turn, n, res, i, xm);
      OddEntry(turn, n, i);
      PutHalf(turn, n, res, i, -res[p + 2 * xm + 1], res[p + 2 * xm]);
      i, i4 := i + 1, i4 + 4;
    }
    while i < ndone
      invariant i4 == 4 * i && 2 * i4 > 3 * n && 0 <= i <= ndone && HalfUnderway(turn, n, res, i)
    {
      var xm := 2 * n - i4;
      OctantRead(turn, n, res, i, xm);
      OddEntry(turn, n, i);
      PutHalf(turn, n, res, i, -res[p + 2 * xm], res[p + 2 * xm + 1]);
      i, i4 := i + 1, i4 + 4;
    }
  }

  lemma OddOctant(n: nat)
    requires n % 2 == 1
    ensures OctantSize(4 * n) == (n + 1) / 2 && n - 1 + 2 * OctantSize(4 * n) == 2 * n && 4 * n > 0 && n > 0
  {}

  /** calc_first_half, for odd lengths: the octant is read from the end of the same buffer. */
  method CalcFirstHalf(turn: real -> Complex, n: nat, res: array<real>)
    requires Circle(turn) && n % 2 == 1 && res.Length == 2 * n
    modifies res
    ensures Table(turn, n, res, 0, 0, (n + 1) / 2)
  {
    var ndone, p := (n + 1) / 2, n - 1;
    OddOctant(n);
    hide Circle, Entry, Table, HalfUnderway, Outside, OctantSize;
    CalcFirstOctant(turn, 4 * n, res, p);
    HalfStarts(turn, n, res);
    var i := FirstTwoOctants(turn, n, res);
    var i4 := 4 * i;
    i := LastTwoOctants(turn, n, res, i, i4);
    HalfEnds(turn, n, res, i);
  }

  // ---------- filling up by reflection ----------

  /** Entries below `done`, and from `from` up to `to`, are there. */
  ghost predicate Gap(turn: real -> Complex, n: nat, res: array<real>, done: nat, from: nat, to: nat)
    requires n > 0
    reads res
  {
    Table(turn, n, res, 0, 0, done) && Table(turn, n, res, 0, from, to)
  }

  /** The entry before the upper ones. */
  method PutBelow(turn: real -> Complex, n: nat, res: array<real>, at: int, v: Complex, ghost done: nat,
                  ghost from: nat, ghost to: nat)
    requires n > 0 && res.Length == 2 * n && at == 2 * (from - 1) && done < from <= to <= n &&
             Gap(turn, n, res, done, from, to) && v == Entry(turn, from - 1, n)
    modifies res
    ensures Gap(turn, n, res, done, from - 1, to)
  {
    hide Entry;
    StorePair(res, at, v);
    forall k: nat | k < done || from - 1 <= k < to
      ensures Holds(res, 0 + 2 * k, Entry(turn, k, n))
    {
      if k != from - 1 {
        assert old(Holds(res, 0 + 2 * k, Entry(turn, k, n)));
      }
    }
  }

  /** The entry after the lower ones. */
  method PutAbove(turn: real -> Complex, n: nat, res: array<real>, at: nat, v: Complex, ghost done: nat)
    requires n > 0 && res.Length == 2 * n && at == 2 * done && done < n && Table(turn, n, res, 0, 0, done) &&
             v == Entry(turn, done, n)
    modifies res
    ensures Table(turn, n, res, 0, 0, done + 1)
  {
    hide Entry;
    StorePair(res, at, v);
    forall k: nat | k < done
      ensures Holds(res, 0 + 2 * k, Entry(turn, k, n))
    {
      assert old(Holds(res, 0 + 2 * k, Entry(turn, k, n)));
    }
  }

  lemma Diagonal(turn: real -> Complex, m: nat)
    requires Circle(turn) && m > 0
    ensures Entry(turn, m, 8 * m) == Complex(turn(0.25).re, turn(0.25).re)
  {
    ArgIs(2 * m, 8 * m, 0.25);
    QuarterEntries(turn, m, 2 * m);
  }

  lemma LowerEntry(turn: real -> Complex, n: nat, res: array<real>, done: nat, from: nat, to: nat, k: nat)
    requires n > 0 && Gap(turn, n, res, done, from, to) && k < done
    ensures Holds(res, 0 + 2 * k, Entry(turn, k, n))
  {}

  /** One turn of the loop of fill_first_quadrant: sine and cosine change places. */
  method QuarterMirror(turn: real -> Complex, n: nat, res: array<real>, quart: nat, i: nat, j: nat, ghost done: nat,
                       ghost k: nat)
    requires Circle(turn) && n == 4 * quart && res.Length == 2 * n && i == 2 * k && 0 < k < done &&
             i + j == 2 * quart && i < quart
    requires done <= quart - k && Gap(turn, n, res, done, quart - k + 1, quart)
    modifies res
    ensures Gap(turn, n, res, done, quart - k, quart)
  {
    LowerEntry(turn, n, res, done, quart - k + 1, quart, k);
    QuarterEntries(turn, k, quart);
    hide Circle, Entry, Gap;
    PutBelow(turn, n, res, j, Complex(res[i + 1], res[i]), done, quart - k + 1, quart);
  }

  /** fill_first_quadrant; the literal stands for the exact cosine of an eighth of a turn. */
  method FillFirstQuadrant(turn: real -> Complex, n: nat, res: array<real>)
    requires Circle(turn) && n > 0 && n % 4 == 0 && res.Length == 2 * n && Table(turn, n, res, 0, 0, OctantSize(n))
    modifies res
    ensures Table(turn, n, res, 0, 0, n / 4)
  {
    var hsqt2 := turn(0.25).re;
    var quart := n / 4;
    if n % 8 == 0 {
      Diagonal(turn, n / 8);
      hide Circle, Entry;
      PutAbove(turn, n, res, quart, Complex(hsqt2, hsqt2), n / 8);
    }
    ghost var done := if n % 8 == 0 then n / 8 + 1 else OctantSize(n);
    MirrorQuarter(turn, n, res, quart, done);
  }

  /** The loop of fill_first_quadrant. */
  method MirrorQuarter(turn: real -> Complex, n: nat, res: array<real>, quart: nat, ghost done: nat)
    requires Circle(turn) && n > 0 && n == 4 * quart && res.Length == 2 * n && Table(turn, n, res, 0, 0, done)
    requires done == if n % 8 == 0 then n / 8 + 1 else OctantSize(n)
    modifies res
    ensures Table(turn, n, res, 0, 0, n / 4)
  {
    QuarterSizes(n, quart, done);
    GapStarts(turn, n, res, done, quart);
    hide Circle, Entry, Gap, Table, OctantSize;
    var i, j := 2, 2 * quart - 2;
    ghost var k: nat := 1;
    while i < quart
      invariant i == 2 * k && k > 0 && i + j == 2 * quart && i <= quart + 1
      invariant Gap(turn, n, res, done, quart - k + 1, quart)
    {
      QuarterMirror(turn, n, res, quart, i, j, done, k);
      i, j, k := i + 2, j - 2, k + 1;
    }
    GapCloses(turn, n, res, done, quart - k + 1, quart);
  }

  lemma QuarterSizes(n: nat, quart: nat, done: nat)
    requires n > 0 && n == 4 * quart && done == if n % 8 == 0 then n / 8 + 1 else OctantSize(n)
    ensures n / 4 == quart > 0 && (quart > 1 ==> done <= quart) && (quart == 1 ==> done == 1) &&
            quart <= 2 * done - 1 && 2 * done <= quart + 2
  {}

  lemma GapStarts(turn: real -> Complex, n: nat, res: array<real>, done: nat, to: nat)
    requires n > 0 && Table(turn, n, res, 0, 0, done)
    ensures Gap(turn, n, res, done, to, to)
  {}

  lemma GapCloses(turn: real -> Complex, n: nat, res: array<real>, done: nat, from: nat, to: nat)
    requires n > 0 && Gap(turn, n, res, done, from, to) && from <= done
    ensures Table(turn, n, res, 0, 0, to)
  {
    hide Entry;
  }

  /** fill_first_half. */
  method FillFirstHalf(turn: real -> Complex, n: nat, res: array<real>, ghost done: nat)
    requires Circle(turn) && n > 0 && n % 2 == 0 && res.Length == 2 * n
    requires Table(turn, n, res, 0, 0, done) && done == if n % 4 == 0 then n / 4 else (n + 2) / 4
    modifies res
    ensures Table(turn, n, res, 0, 0, n / 2)
  {
    hide Circle, Entry;
    var half := n / 2;
    if n % 4 == 0 {
      var i := 0;
      while i < half
        invariant i % 2 == 0 && 0 <= i <= half && Table(turn, n, res, 0, 0, n / 4 + i / 2)
      {
        ghost var k := i / 2;
        assert Holds(res, 0 + 2 * k, Entry(turn, k, n));
        QuarterEntries(turn, k, n / 4);
        PutAbove(turn, n, res, i + half, Complex(-res[i + 1], res[i]), n / 4 + k);
        i := i + 2;
      }
    } else {
      var i, j := 2, 2 * half - 2;
      while i < half
        invariant i % 2 == 0 && 2 <= i && i + j == 2 * half && i <= half + 1
        invariant Gap(turn, n, res, done, half - i / 2 + 1, half)
      {
        ghost var k := i / 2;
        assert Holds(res, 0 + 2 * k, Entry(turn, k, n));
        HalfEntries(turn, k, half);
        PutBelow(turn, n, res, j, Complex(-res[i], res[i + 1]), done, half - k + 1, half);
        i, j := i + 2, j - 2;
      }
    }
  }

  /** The branch of fill_second_half for even lengths: the other half, turned by half a turn. */
  method FillByHalfTurn(turn: real -> Complex, n: nat, res: array<real>)
    requires Circle(turn) && n > 0 && n % 2 == 0 && res.Length == 2 * n && Table(turn, n, res, 0, 0, n / 2)
    modifies res
    ensures Table(turn, n, res, 0, 0, n)
  {
    hide Circle, Entry, Table;
    ghost var was := res[..];
    TableIs(turn, n, res, n / 2);
    for i := 0 to n
      invariant res[..n] == was[..n]
      invariant forall m :: 0 <= m < i ==> res[m + n] == -was[m]
    {
      assert res[i] == res[..n][i] == was[i];
      res[i + n] := -res[i];
    }
    forall k: nat | k < n
      ensures Holds(res, 2 * k, Entry(turn, k, n))
    {
      if k < n / 2 {
        assert res[2 * k] == res[..n][2 * k] && res[2 * k + 1] == res[..n][2 * k + 1];
      } else {
        var m: nat := k - n / 2;
        HalfEntries(turn, m, n / 2);
        assert res[2 * m + n] == -was[2 * m] && res[2 * m + 1 + n] == -was[2 * m + 1];
      }
    }
    IsTable(turn, n, res, n);
  }

  lemma TableIs(turn: real -> Complex, n: nat, res: array<real>, done: nat)
    requires n > 0 && Table(turn, n, res, 0, 0, done)
    ensures forall k: nat :: k < done ==> Holds(res, 2 * k, Entry(turn, k, n))
  {
    hide Entry;
    forall k: nat | k < done
      ensures Holds(res, 2 * k, Entry(turn, k, n))
    {
      assert Holds(res, 0 + 2 * k, Entry(turn, k, n));
    }
  }

  lemma IsTable(turn: real -> Complex, n: nat, res: array<real>, done: nat)
    requires n > 0 && forall k: nat :: k < done ==> Holds(res, 2 * k, Entry(turn, k, n))
    ensures Table(turn, n, res, 0, 0, done)
  {
    hide Entry;
  }

  /** fill_second_half. */
  method FillSecondHalf(turn: real -> Complex, n: nat, res: array<real>)
    requires Circle(turn) && n > 0 && res.Length == 2 * n && Table(turn, n, res, 0, 0, (n + 1) / 2)
    modifies res
    ensures Table(turn, n, res, 0, 0, n)
  {
    hide Circle, Entry;
    if n % 2 == 0 {
      FillByHalfTurn(turn, n, res);
    } else {
      var i, j := 2, 2 * n - 2;
      ghost var done := (n + 1) / 2;
      while i < n
        invariant i % 2 == 0 && 2 <= i && i + j == 2 * n && i <= n + 1
        invariant Gap(turn, n, res, done, n - i / 2 + 1, n)
      {
        ghost var k := i / 2;
        assert Holds(res, 0 + 2 * k, Entry(turn, k, n));
        WholeEntries(turn, k, n);
        PutBelow(turn, n, res, j, Complex(res[i], -res[i + 1]), done, n - k + 1, n);
        i, j := i + 2, j - 2;
      }
    }
  }

  lemma OctantFits(n: nat)
    requires n > 0
    ensures 2 * OctantSize(n) <= 2 * n
  {}

  lemma Parities(n: nat)
    ensures n % 4 == 0 ==> n % 2 == 0
    ensures n % 4 != 0 && n % 2 == 0 ==> n % 4 == 2
    ensures n % 2 == 0 ==> (n + 1) / 2 == n / 2
    ensures n % 2 != 0 ==> n % 2 == 1
  {}

  /** sincos_2pibyn_half: the entries up to half a turn. */
  method SinCosHalf(turn: real -> Complex, n: nat, res: array<real>)
    requires Circle(turn) && n > 0 && res.Length == 2 * n
    modifies res
    ensures Table(turn, n, res, 0, 0, (n + 1) / 2)
  {
    OctantFits(n);
    Parities(n);
    hide Circle, Entry, Table, Outside, OctantSize;
    if n % 4 == 0 {
      CalcFirstOctant(turn, n, res, 0);
      FillFirstQuadrant(turn, n, res);
      FillFirstHalf(turn, n, res, n / 4);
    } else if n % 2 == 0 {
      CalcFirstQuadrant(turn, n, res);
      FillFirstHalf(turn, n, res, (n + 2) / 4);
    } else {
      CalcFirstHalf(turn, n, res);
    }
  }

  /** sincos_2pibyn: the whole table, for every length. */
  method SinCosTable(turn: real -> Complex, n: nat, res: array<real>)
    requires Circle(turn) && n > 0 && res.Length == 2 * n
    modifies res
    ensures Table(turn, n, res, 0, 0, n)
  {
    SinCosHalf(turn, n, res);
    FillSecondHalf(turn, n, res);
  }

  // ---------- the table and the roots of unity ----------

  function Root(turn: real -> Complex): nat -> Complex {
    (n: nat) => if n == 0 then ONE else Entry(turn, 1, n)
  }

  lemma {:induction false} EntryIsPower(turn: real -> Complex, k: nat, n: nat)
    requires Circle(turn) && n > 0
    ensures Entry(turn, k, n) == Pow(Root(turn)(n), k)
  {
    hide Circle, Mul;
    if k == 0 {
      WholeEntries(turn, 0, n);
    } else {
      EntryIsPower(turn, k - 1, n);
      EntrySum(turn, 1, k - 1, n);
    }
  }

  /** There is no return before a full turn. */
  lemma NoReturn(turn: real -> Complex, a: real)
    requires Circle(turn) && 0.0 < a < 2.0
    ensures turn(a) != ONE
  {
    HalfTurn(turn);
    if a > 1.0 {
      AddTurns(turn, 1.0, a - 1.0);
      assert 1.0 + (a - 1.0) == a && 0.0 < a - 1.0 < 1.0;
      TimesMinusOne(turn(a - 1.0));
      hide Mul;
    }
  }

  /** Before half a turn the table is above the axis. */
  lemma EntryAbove(turn: real -> Complex, k: int, n: nat)
    requires Circle(turn) && 0 < 2 * k < n
    ensures Entry(turn, k, n).im > 0.0
  {
    ArgTimes(2 * k, n);
    var x, r := Arg(2 * k, n), n as real;
    hide Arg;
    var t := (2 * k) as real;
    StrictOrder(0.0, x, r, 0.0, t);
    StrictOrder(x, 1.0, r, t, r);
  }

  lemma NotWhole(turn: real -> Complex, d: nat, n: nat)
    requires Circle(turn) && 0 < d < n
    ensures Entry(turn, d, n) != ONE
  {
    InsideTurn(2 * d, n);
    NoReturn(turn, Arg(2 * d, n));
    hide Arg, Circle;
  }

  lemma InsideTurn(a: int, d: nat)
    requires 0 < a < 2 * d
    ensures 0.0 < Arg(a, d) < 2.0
  {
    ArgTimes(a, d);
    var x, r := Arg(a, d), d as real;
    hide Arg;
    var t := a as real;
    assert 0.0 < t && t < (2 * d) as real == 2.0 * r;
    StrictOrder(0.0, x, r, 0.0, t);
    StrictOrder(x, 2.0, r, t, 2.0 * r);
  }

  lemma StrictOrder(x: real, y: real, d: real, p: real, q: real)
    requires d > 0.0 && x * d == p && y * d == q && p < q
    ensures x < y
  {}

  lemma RootIsPrincipal(turn: real -> Complex, n: nat)
    requires Circle(turn) && n > 0
    ensures PrincipalRoot(Root(turn)(n), n)
  {
    var w := Root(turn)(n);
    assert OnCircle(turn, Arg(2, n));
    assert Mul(w, Conj(w)) == ONE;
    EntryIsPower(turn, n, n);
    WholeEntries(turn, 0, n);
    ConjOne();
    forall d: nat | 0 < d < n
      ensures Pow(w, d) != ONE
    {
      EntryIsPower(turn, d, n);
      NotWhole(turn, d, n);
    }
    if n % 4 == 0 {
      EntryIsPower(turn, n / 4, n);
      QuarterEntries(turn, 0, n / 4);
    }
    hide Mul, Pow, Conj, Entry, Circle;
  }

  /** The circle gives a root family, and the table holds the powers of its root: it is the table
      that the twiddle factors are taken from. */
  lemma CircleIsRootFamily(turn: real -> Complex)
    requires Circle(turn)
    ensures RootFamily(Root(turn))
    ensures forall n: nat, k: nat :: n > 0 && k < n ==> TrigTable(Root(turn)(n), n)[k] == Entry(turn, k, n)
  {
    hide Circle, PrincipalRoot, Pow, Entry;
    forall n: nat | n > 0
      ensures PrincipalRoot(Root(turn)(n), n)
    {
      RootIsPrincipal(turn, n);
    }
    forall n: nat, m: nat | n > 0 && m > 0
      ensures Refines(Root(turn), n, m)
    {
      EntryScale(turn, 1, n, m);
      assert m * n == n * m && m * 1 == m;
      EntryIsPower(turn, m, n * m);
    }
    forall n: nat, k: nat | n > 0 && k < n
      ensures TrigTable(Root(turn)(n), n)[k] == Entry(turn, k, n)
    {
      EntryIsPower(turn, k, n);
    }
  }

  /** The filled table, pair by pair. */
  method TrigEntries(turn: real -> Complex, n: nat) returns (twid: seq<Complex>)
    requires Circle(turn) && n > 0
    ensures twid == TrigTable(Root(turn)(n), n)
  {
    var res := new real[2 * n];
    SinCosTable(turn, n, res);
    CircleIsRootFamily(turn);
    hide Circle, Entry, Root, TrigTable;
    TrigTableAt(Root(turn)(n), n);
    twid := [];
    for k := 0 to n
      invariant |twid| == k && Table(turn, n, res, 0, 0, n)
      invariant forall i: nat :: i < k ==> twid[i] == TrigTable(Root(turn)(n), n)[i]
    {
      assert Holds(res, 0 + 2 * k, Entry(turn, k, n));
      twid := twid + [Complex(res[2 * k], res[2 * k + 1])];
    }
  }
}
