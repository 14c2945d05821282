/** The short transforms at the core of the passes: radix 2, 4, and the odd radices by mirror pairs. */
module Butterflies {
  import opened Complexes
  import opened Sums
  import opened Dft

  /** ROT90: a quarter turn. */
  function Turn(a: Complex): Complex { Complex(-a.im, a.re) }

  // ---------- odd radices ----------

  function SumOf(x: seq<Complex>, i: nat): Complex { Add(At(x, i + 1), At(x, if i < |x| then |x| - 1 - i else 0)) }

  function DiffOf(x: seq<Complex>, i: nat): Complex { Sub(At(x, i + 1), At(x, if i < |x| then |x| - 1 - i else 0)) }

  function SumTerm(x: seq<Complex>): nat -> Complex { (i: nat) => SumOf(x, i) }

  function EvenTerm(x: seq<Complex>, r: Complex, u: nat): nat -> Complex {
    (i: nat) => Scale(Pow(r, (i + 1) * u).re, SumOf(x, i))
  }

  function OddTerm(x: seq<Complex>, r: Complex, u: nat): nat -> Complex {
    (i: nat) => Turn(Scale(Pow(r, (i + 1) * u).im, DiffOf(x, i)))
  }

  /** What the mirrored outputs `u` and `|x| - u` share, and what sets them apart. */
  function EvenPart(x: seq<Complex>, r: Complex, u: nat): Complex {
    Add(At(x, 0), Sum(|x| / 2, EvenTerm(x, r, u)))
  }

  function OddPart(x: seq<Complex>, r: Complex, u: nat): Complex {
    Sum(|x| / 2, OddTerm(x, r, u))
  }

  lemma MirrorAlgebra(z: Complex, a: Complex, b: Complex)
    ensures Add(Mul(a, z), Mul(b, Conj(z))) == Add(Scale(z.re, Add(a, b)), Turn(Scale(z.im, Sub(a, b))))
  {
    MulByParts(a, z);
    MulByParts(b, Conj(z));
    ScaleSum(z.re, a, b);
    ScaleSum(z.im, a, b);
    ScaleSum(z.im, b, b);
    hide Mul, Scale;
  }

  lemma MulByParts(a: Complex, z: Complex)
    ensures Mul(a, z) == Add(Scale(z.re, a), Turn(Scale(z.im, a)))
  {}

  lemma ScaleSum(c: real, a: Complex, b: Complex)
    ensures Scale(c, Add(a, b)) == Add(Scale(c, a), Scale(c, b))
    ensures Scale(c, Sub(a, b)) == Sub(Scale(c, a), Scale(c, b))
    ensures Scale(-c, a) == Neg(Scale(c, a))
  {}

  lemma InverseIsConj(z: Complex, y: Complex)
    requires Mul(z, Conj(z)) == ONE && Mul(z, y) == ONE
    ensures y == Conj(z)
  {
    hide Mul, Conj;
    MulComm(z, Conj(z));
    MulAssoc(Conj(z), z, y);
    MulOne(y);
    MulOne(Conj(z));
  }

  lemma PowUnit(r: Complex, k: nat)
    requires Mul(r, Conj(r)) == ONE
    ensures Mul(Pow(r, k), Conj(Pow(r, k))) == ONE
  {
    PowCancel(r, k);
    PowConj(r, k);
  }

  /** Opposite powers of a root are conjugate. */
  lemma MirrorPower(r: Complex, p: nat, a: nat, b: nat, laps: nat)
    requires Mul(r, Conj(r)) == ONE && Pow(r, p) == ONE
    requires a + b == p * laps
    ensures Pow(r, b) == Conj(Pow(r, a))
  {
    hide Mul, Pow, Conj;
    PowAdd(r, a, b);
    PowMul(r, p, laps);
    PowOne(laps);
    PowUnit(r, a);
    InverseIsConj(Pow(r, a), Pow(r, b));
  }

  /** The transform of an odd number of points by mirror pairs. */
  lemma OddDft(x: seq<Complex>, r: Complex, u: nat)
    requires |x| % 2 == 1
    requires Mul(r, Conj(r)) == ONE && Pow(r, |x|) == ONE
    ensures DftAt(x, r, u) == Add(EvenPart(x, r, u), OddPart(x, r, u))
  {
    hide Mul, Pow, Conj, Add, Sub, Scale, Turn;
    var p, h := |x|, |x| / 2;
    var f := DftTerm(x, r, u);
    SumFolded(h, f);
    forall i: nat | i < h
      ensures Folded(f, h)(i) == Add(EvenTerm(x, r, u)(i), OddTerm(x, r, u)(i))
    {
      Opposite(p, i + 1, u);
      MirrorPower(r, p, (i + 1) * u, (p - 1 - i) * u, u);
      MirrorAlgebra(Pow(r, (i + 1) * u), x[i + 1], x[p - 1 - i]);
      assert 2 * h - i == p - 1 - i;
    }
    SumAdd(h, EvenTerm(x, r, u), OddTerm(x, r, u), Folded(f, h));
    FirstTerm(x, r, u);
    AddAssoc(x[0], Sum(h, EvenTerm(x, r, u)), Sum(h, OddTerm(x, r, u)));
  }

  lemma FirstTerm(x: seq<Complex>, r: Complex, u: nat)
    requires |x| > 0
    ensures DftTerm(x, r, u)(0) == x[0]
  {
    assert 0 * u == 0;
    MulOne(x[0]);
    hide Mul;
  }

  lemma Opposite(p: nat, a: nat, u: nat)
    requires a <= p
    ensures a * u + (p - a) * u == p * u
  {}

  lemma SubFromAdd(e: Complex, o: Complex, m: Complex)
    requires m == Neg(o)
    ensures Add(e, m) == Sub(e, o)
  {}

  lemma TurnNegated(c: real, d: Complex)
    ensures Turn(Scale(-c, d)) == Mul(Complex(-1.0, 0.0), Turn(Scale(c, d)))
  {}

  lemma NegIsMul(a: Complex)
    ensures Mul(Complex(-1.0, 0.0), a) == Neg(a)
  {}

  lemma ConjParts(z: Complex)
    ensures Conj(z).re == z.re && Conj(z).im == -z.im
  {}

  /** Output `|x| - u` takes the difference where output `u` takes the sum. */
  lemma OddDftMirror(x: seq<Complex>, r: Complex, u: nat)
    requires |x| % 2 == 1 && u <= |x|
    requires Mul(r, Conj(r)) == ONE && Pow(r, |x|) == ONE
    ensures DftAt(x, r, |x| - u) == Sub(EvenPart(x, r, u), OddPart(x, r, u))
  {
    hide Mul, Pow, Conj, Add, Sub, Scale, Turn, Neg;
    var p, h, v := |x|, |x| / 2, |x| - u;
    OddDft(x, r, v);
    forall i: nat | i < h
      ensures EvenTerm(x, r, v)(i) == EvenTerm(x, r, u)(i)
      ensures OddTerm(x, r, v)(i) == Mul(Complex(-1.0, 0.0), OddTerm(x, r, u)(i))
    {
      var z := Pow(r, (i + 1) * u);
      Opposite(p, u, i + 1);
      assert (i + 1) * u == u * (i + 1) && (i + 1) * v == v * (i + 1);
      MirrorPower(r, p, (i + 1) * u, (i + 1) * v, i + 1);
      ConjParts(z);
      TurnNegated(z.im, DiffOf(x, i));
    }
    SumCong(h, EvenTerm(x, r, v), EvenTerm(x, r, u));
    SumScale(h, Complex(-1.0, 0.0), OddTerm(x, r, u), OddTerm(x, r, v));
    NegIsMul(OddPart(x, r, u));
    SubFromAdd(EvenPart(x, r, u), OddPart(x, r, u), OddPart(x, r, v));
  }

  /** Output 0 is the plain sum. */
  lemma OddDftZero(x: seq<Complex>, r: Complex)
    requires |x| % 2 == 1
    ensures DftAt(x, r, 0) == Add(x[0], Sum(|x| / 2, SumTerm(x)))
  {
    hide Mul, Add;
    var h := |x| / 2;
    var f := DftTerm(x, r, 0);
    SumFolded(h, f);
    FirstTerm(x, r, 0);
    forall i: nat | i < h
      ensures Folded(f, h)(i) == SumOf(x, i)
    {
      PlainTerm(x, r, i + 1);
      PlainTerm(x, r, |x| - 1 - i);
      assert 2 * h - i == |x| - 1 - i;
    }
    SumCong(h, Folded(f, h), SumTerm(x));
  }

  lemma PlainTerm(x: seq<Complex>, r: Complex, i: nat)
    ensures DftTerm(x, r, 0)(i) == At(x, i)
  {
    assert i * 0 == 0;
    MulOne(At(x, i));
    hide Mul;
  }

  // ---------- the hard-coded odd radices ----------

  /** Which stored twiddle the macro call for output `u + 1` pairs with inputs `i + 1` and
      `p - 1 - i`; a negative entry stands for the negated sine. */
  const ROWS_3: seq<seq<int>> := [[1]]
  const ROWS_5: seq<seq<int>> := [[1, 2], [2, -1]]
  const ROWS_7: seq<seq<int>> := [[1, 2, 3], [2, -3, -1], [3, -1, 2]]
  const ROWS_11: seq<seq<int>> := [
    [1, 2, 3, 4, 5], [2, 4, -5, -3, -1], [3, -5, -2, 1, 4], [4, -3, 1, 5, -2], [5, -1, 4, -2, 3]]

  /** The residue of `m` modulo `p` of least absolute value. */
  function Fold(p: nat, m: nat): int
    requires p > 0
  {
    if m % p <= p / 2 then m % p else m % p - p
  }

  ghost predicate RowFolds(p: nat, row: seq<int>, u: nat)
    requires p > 0
  {
    |row| == p / 2 && forall i: nat :: i < p / 2 ==> row[i] == Fold(p, (i + 1) * u)
  }

  ghost predicate FoldsRightly(p: nat, rows: seq<seq<int>>) {
    && p % 2 == 1
    && |rows| == p / 2
    && forall u: nat :: u < p / 2 ==> RowFolds(p, rows[u], u + 1)
  }

  lemma RowsOfThreeAndFive()
    ensures RowFolds(3, [1], 1)
    ensures RowFolds(5, [1, 2], 1) && RowFolds(5, [2, -1], 2)
  {}

  lemma RowsOfSeven()
    ensures RowFolds(7, [1, 2, 3], 1) && RowFolds(7, [2, -3, -1], 2) && RowFolds(7, [3, -1, 2], 3)
  {}

  lemma RowsOfEleven()
    ensures RowFolds(11, [1, 2, 3, 4, 5], 1) && RowFolds(11, [2, 4, -5, -3, -1], 2)
    ensures RowFolds(11, [3, -5, -2, 1, 4], 3)
  {}

  lemma LastRowsOfEleven()
    ensures RowFolds(11, [4, -3, 1, 5, -2], 4) && RowFolds(11, [5, -1, 4, -2, 3], 5)
  {}

  lemma HardCodedRowsFoldRightly()
    ensures FoldsRightly(3, ROWS_3) && FoldsRightly(5, ROWS_5)
    ensures FoldsRightly(7, ROWS_7) && FoldsRightly(11, ROWS_11)
  {
    hide RowFolds;
    RowsOfThreeAndFive();
    RowsOfSeven();
    RowsOfEleven();
    LastRowsOfEleven();
  }

  function CosOf(tw: seq<Complex>, e: int): real { At(tw, if e < 0 then -e else e).re }

  function SinOf(tw: seq<Complex>, e: int): real {
    if e < 0 then -At(tw, -e).im else At(tw, e).im
  }

  function RowEvenTerm(x: seq<Complex>, tw: seq<Complex>, row: seq<int>): nat -> Complex {
    (i: nat) => if i < |row| then Scale(CosOf(tw, row[i]), SumOf(x, i)) else ZERO
  }

  function RowOddTerm(x: seq<Complex>, tw: seq<Complex>, row: seq<int>): nat -> Complex {
    (i: nat) => if i < |row| then Turn(Scale(SinOf(tw, row[i]), DiffOf(x, i))) else ZERO
  }

  /** PREP and PARTSTEP for an odd radix: `tw[m]` holds the stored cosine and signed sine. */
  function OddButterfly(x: seq<Complex>, tw: seq<Complex>, rows: seq<seq<int>>): (y: seq<Complex>)
    ensures |y| == |x|
  {
    seq(|x|, (j: nat) => OddOutput(x, tw, rows, j))
  }

  function OddOutput(x: seq<Complex>, tw: seq<Complex>, rows: seq<seq<int>>, j: nat): Complex {
    var h := |x| / 2;
    if j == 0 then Add(At(x, 0), Sum(h, SumTerm(x)))
    else if j <= h then Add(RowEven(x, tw, RowOf(rows, j)), RowOdd(x, tw, RowOf(rows, j)))
    else Sub(RowEven(x, tw, RowOf(rows, |x| - j)), RowOdd(x, tw, RowOf(rows, |x| - j)))
  }

  function RowOf(rows: seq<seq<int>>, u: int): seq<int> { if 0 < u <= |rows| then rows[u - 1] else [] }

  function RowEven(x: seq<Complex>, tw: seq<Complex>, row: seq<int>): Complex {
    Add(At(x, 0), Sum(|x| / 2, RowEvenTerm(x, tw, row)))
  }

  function RowOdd(x: seq<Complex>, tw: seq<Complex>, row: seq<int>): Complex {
    Sum(|x| / 2, RowOddTerm(x, tw, row))
  }

  /** `tw` holds the first half of the powers of `r`. */
  ghost predicate HalfTable(tw: seq<Complex>, r: Complex, p: nat) {
    |tw| == p / 2 + 1 && forall m: nat :: m <= p / 2 ==> At(tw, m) == Pow(r, m)
  }

  lemma FoldedPower(tw: seq<Complex>, r: Complex, p: nat, m: nat)
    requires p % 2 == 1 && HalfTable(tw, r, p)
    requires Mul(r, Conj(r)) == ONE && Pow(r, p) == ONE
    ensures CosOf(tw, Fold(p, m)) == Pow(r, m).re && SinOf(tw, Fold(p, m)) == Pow(r, m).im
  {
    hide Mul, Pow;
    var t, q := m % p, m / p;
    assert m == t + p * q;
    PowMod(r, p, t, q);
    if t > p / 2 {
      MirrorPower(r, p, p - t, t, 1);
    }
  }

  lemma RowPartsCorrect(x: seq<Complex>, tw: seq<Complex>, rows: seq<seq<int>>, r: Complex, u: nat)
    requires FoldsRightly(|x|, rows) && HalfTable(tw, r, |x|)
    requires Mul(r, Conj(r)) == ONE && Pow(r, |x|) == ONE
    requires 0 < u <= |x| / 2
    ensures RowEven(x, tw, rows[u - 1]) == EvenPart(x, r, u)
    ensures RowOdd(x, tw, rows[u - 1]) == OddPart(x, r, u)
  {
    hide Mul, Pow, Add, Sub, Scale, Turn, Conj, CosOf, SinOf, Fold;
    var p, h, row := |x|, |x| / 2, rows[u - 1];
    assert RowFolds(p, row, u - 1 + 1);
    forall i: nat | i < h
      ensures RowEvenTerm(x, tw, row)(i) == EvenTerm(x, r, u)(i)
      ensures RowOddTerm(x, tw, row)(i) == OddTerm(x, r, u)(i)
    {
      FoldedPower(tw, r, p, (i + 1) * u);
    }
    SumCong(h, RowEvenTerm(x, tw, row), EvenTerm(x, r, u));
    SumCong(h, RowOddTerm(x, tw, row), OddTerm(x, r, u));
  }

  lemma FoldsShape(p: nat, rows: seq<seq<int>>)
    requires FoldsRightly(p, rows)
    ensures p % 2 == 1 && |rows| == p / 2
  {}

  lemma LowerOutput(x: seq<Complex>, tw: seq<Complex>, rows: seq<seq<int>>, r: Complex, j: nat)
    requires FoldsRightly(|x|, rows) && HalfTable(tw, r, |x|)
    requires Mul(r, Conj(r)) == ONE && Pow(r, |x|) == ONE
    requires 0 < j <= |x| / 2
    ensures OddOutput(x, tw, rows, j) == DftAt(x, r, j)
  {
    hide Mul, Pow, Add, Sub, Conj, RowEven, RowOdd, EvenPart, OddPart, DftAt, Sum, FoldsRightly, HalfTable;
    FoldsShape(|x|, rows);
    RowPartsCorrect(x, tw, rows, r, j);
    OddDft(x, r, j);
  }

  lemma UpperOutput(x: seq<Complex>, tw: seq<Complex>, rows: seq<seq<int>>, r: Complex, j: nat)
    requires FoldsRightly(|x|, rows) && HalfTable(tw, r, |x|)
    requires Mul(r, Conj(r)) == ONE && Pow(r, |x|) == ONE
    requires |x| / 2 < j < |x|
    ensures OddOutput(x, tw, rows, j) == DftAt(x, r, j)
  {
    hide Mul, Pow, Add, Sub, Conj, RowEven, RowOdd, EvenPart, OddPart, DftAt, Sum, FoldsRightly, HalfTable;
    FoldsShape(|x|, rows);
    var u: nat := |x| - j;
    RowPartsCorrect(x, tw, rows, r, u);
    OddDftMirror(x, r, u);
  }

  /** The hard-coded coefficient orders compute the transform of a column. */
  lemma OddButterflyCorrect(x: seq<Complex>, tw: seq<Complex>, rows: seq<seq<int>>, r: Complex, j: nat)
    requires FoldsRightly(|x|, rows) && HalfTable(tw, r, |x|)
    requires Mul(r, Conj(r)) == ONE && Pow(r, |x|) == ONE
    requires j < |x|
    ensures OddButterfly(x, tw, rows)[j] == DftAt(x, r, j)
  {
    hide Mul, Pow, Add, Sub, Conj, RowEven, RowOdd, EvenPart, OddPart, DftAt, Sum, FoldsRightly, HalfTable;
    FoldsShape(|x|, rows);
    assert OddButterfly(x, tw, rows)[j] == OddOutput(x, tw, rows, j);
    if j == 0 {
      OddDftZero(x, r);
    } else if j <= |x| / 2 {
      LowerOutput(x, tw, rows, r, j);
    } else {
      UpperOutput(x, tw, rows, r, j);
    }
  }

  // ---------- radix 2 and 4 ----------

  function Butterfly2(x: seq<Complex>): (y: seq<Complex>)
    ensures |y| == 2
  {
    [Add(At(x, 0), At(x, 1)), Sub(At(x, 0), At(x, 1))]
  }

  lemma SquareRootOfOne(r: Complex)
    requires Mul(r, r) == ONE && r != ONE
    ensures r == Neg(ONE)
  {
    assert Mul(Sub(r, ONE), Add(r, ONE)) == Sub(Mul(r, r), ONE);
    SubVanishes(Mul(r, r), ONE);
    SubVanishes(r, ONE);
    NoZeroDivisors(Sub(r, ONE), Add(r, ONE));
  }

  lemma TwoTerms(f: nat -> Complex)
    ensures Sum(2, f) == Add(f(0), f(1))
  {
    hide Add;
    assert Sum(2, f) == Add(Add(ZERO, f(0)), f(1)) by { assert Sum(1, f) == Add(Sum(0, f), f(0)); }
    AddZero(f(0));
  }

  lemma FourTerms(f: nat -> Complex)
    ensures Sum(4, f) == Add(Add(f(0), f(2)), Add(f(1), f(3)))
  {
    hide Add;
    TwoTerms(f);
    assert Sum(4, f) == Add(Add(Sum(2, f), f(2)), f(3)) by { assert Sum(3, f) == Add(Sum(2, f), f(2)); }
    AddExchange(f(0), f(1), f(2), f(3));
    AddAssoc(Add(f(0), f(1)), f(2), f(3));
  }

  lemma MulByUnits(a: Complex)
    ensures Mul(a, ONE) == a
    ensures Mul(a, Neg(ONE)) == Neg(a)
    ensures Mul(a, I) == Turn(a)
    ensures Mul(a, Neg(I)) == Neg(Turn(a))
  {}

  lemma SmallPowers(r: Complex)
    ensures Pow(r, 0) == ONE && Pow(r, 1) == r && Pow(r, 2) == Mul(r, r) && Pow(r, 3) == Mul(r, Mul(r, r))
  {
    hide Mul;
    assert Pow(r, 1) == Mul(r, Pow(r, 0));
    MulOne(r);
    assert Pow(r, 2) == Mul(r, Pow(r, 1));
    assert Pow(r, 3) == Mul(r, Pow(r, 2));
  }

  lemma AddNeg(a: Complex, b: Complex)
    ensures Add(a, Neg(b)) == Sub(a, b) && Sub(a, Neg(b)) == Add(a, b)
    ensures Neg(Add(a, b)) == Add(Neg(a), Neg(b)) && Neg(Neg(a)) == a
  {}

  lemma Butterfly2Correct(x: seq<Complex>, r: Complex, j: nat)
    requires |x| == 2 && UnitRoot(r, 2) && j < 2
    ensures Butterfly2(x)[j] == DftAt(x, r, j)
  {
    hide Mul, Pow, Add, Sub, Neg, Conj, Sum;
    SmallPowers(r);
    SquareRootOfOne(r);
    TwoTerms(DftTerm(x, r, j));
    MulByUnits(x[0]);
    MulByUnits(x[1]);
    AddNeg(x[0], x[1]);
  }

  /** ROT90 or ROTM90 of the last difference, by the direction of the transform. */
  function Butterfly4(x: seq<Complex>, sign: int): (y: seq<Complex>)
    ensures |y| == 4
  {
    var t2, t1 := Add(At(x, 0), At(x, 2)), Sub(At(x, 0), At(x, 2));
    var t3, d := Add(At(x, 1), At(x, 3)), Sub(At(x, 1), At(x, 3));
    var t4 := SignedTurn(d, sign);
    [Add(t2, t3), Add(t1, t4), Sub(t2, t3), Sub(t1, t4)]
  }

  lemma MulNeg(a: Complex, b: Complex)
    ensures Mul(a, Neg(b)) == Neg(Mul(a, b)) && Mul(Neg(a), b) == Neg(Mul(a, b))
  {}

  lemma SquareOfI()
    ensures Mul(I, I) == Neg(ONE)
  {}

  lemma QuarterProducts(r: Complex)
    requires r == I || r == Neg(I)
    ensures Mul(r, ONE) == r && Mul(r, r) == Neg(ONE) && Mul(r, Neg(ONE)) == Neg(r) && Mul(r, Neg(r)) == ONE
  {
    AddNeg(ONE, ONE);
    AddNeg(I, I);
    hide Mul, Neg;
    MulOne(r);
    MulNeg(r, ONE);
    MulNeg(r, r);
    MulNeg(I, r);
    MulNeg(I, I);
    SquareOfI();
  }

  function Quarter(r: Complex, t: nat): Complex {
    if t == 0 then ONE else if t == 1 then r else if t == 2 then Neg(ONE) else Neg(r)
  }

  lemma {:induction false} QuarterPower(r: Complex, k: nat)
    requires r == I || r == Neg(I)
    ensures Pow(r, k) == Quarter(r, k % 4)
  {
    hide Mul, Neg;
    if k != 0 {
      QuarterPower(r, k - 1);
      QuarterProducts(r);
    }
  }

  /** A quarter turn in the direction of the transform. */
  function SignedTurn(a: Complex, sign: int): Complex { if sign > 0 then Turn(a) else Neg(Turn(a)) }

  lemma MulByQuarters(a: Complex, sign: int)
    ensures Mul(a, ONE) == a && Mul(a, Neg(ONE)) == Neg(a)
    ensures Mul(a, Signed(I, sign)) == SignedTurn(a, sign)
    ensures Mul(a, Neg(Signed(I, sign))) == Neg(SignedTurn(a, sign))
  {
    MulByUnits(a);
  }

  lemma SignedTurnSub(a: Complex, b: Complex, sign: int)
    ensures SignedTurn(Sub(a, b), sign) == Sub(SignedTurn(a, sign), SignedTurn(b, sign))
  {}

  lemma FourByFour(a: Complex, b: Complex, c: Complex, d: Complex)
    ensures Add(Add(a, Neg(c)), Add(b, Neg(d))) == Add(Sub(a, c), Sub(b, d))
    ensures Add(Add(a, c), Add(Neg(b), Neg(d))) == Sub(Add(a, c), Add(b, d))
    ensures Add(Add(a, Neg(c)), Add(Neg(b), d)) == Sub(Sub(a, c), Sub(b, d))
  {}

  lemma QuarterTerm(x: seq<Complex>, sign: int, i: nat, j: nat)
    ensures i * j >= 0
    ensures DftTerm(x, Signed(I, sign), j)(i)
         == match (i * j) % 4
            case 0 => At(x, i)
            case 1 => SignedTurn(At(x, i), sign)
            case 2 => Neg(At(x, i))
            case _ => Neg(SignedTurn(At(x, i), sign))
  {
    var r := Signed(I, sign);
    assert r == I || r == Neg(I);
    hide Mul, Pow, Neg, SignedTurn, Signed;
    QuarterPower(r, i * j);
    MulByQuarters(At(x, i), sign);
  }

  lemma Butterfly4Correct(x: seq<Complex>, sign: int, j: nat)
    requires |x| == 4 && j < 4
    ensures Butterfly4(x, sign)[j] == DftAt(x, Signed(I, sign), j)
  {
    hide Mul, Pow, Add, Sub, Neg, Sum, SignedTurn, Signed, DftTerm;
    FourTerms(DftTerm(x, Signed(I, sign), j));
    QuarterTerm(x, sign, 0, j);
    QuarterTerm(x, sign, 1, j);
    QuarterTerm(x, sign, 2, j);
    QuarterTerm(x, sign, 3, j);
    SignedTurnSub(x[1], x[3], sign);
    FourByFour(x[0], x[1], x[2], x[3]);
    FourByFour(x[0], SignedTurn(x[1], sign), x[2], SignedTurn(x[3], sign));
  }
}
