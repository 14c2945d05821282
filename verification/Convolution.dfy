/** The convolution theorem, and the symmetry that lets one stored transform serve both signs. */
module Convolution {
  import opened Complexes
  import opened Sums
  import opened Dft

  /** Index `t - j` around a circle of `n` points. */
  function Around(t: nat, j: nat, n: nat): nat {
    if t >= j then t - j else if t + n >= j then t + n - j else 0
  }

  function CircTerm(a: seq<Complex>, b: seq<Complex>, t: nat): nat -> Complex {
    (j: nat) => Mul(At(a, j), At(b, Around(t, j, |a|)))
  }

  /** Circular convolution by definition. */
  function Circular(a: seq<Complex>, b: seq<Complex>): seq<Complex> {
    seq(|a|, (t: nat) => Sum(|a|, CircTerm(a, b, t)))
  }

  function Pointwise(a: seq<Complex>, b: seq<Complex>): seq<Complex> {
    seq(|a|, (i: nat) => Mul(At(a, i), At(b, i)))
  }

  /** Summing around the circle from any starting point gives the same. */
  function Rotated(f: nat -> Complex, j: nat, n: nat): nat -> Complex {
    (t: nat) => f(Around(t, j, n))
  }

  lemma SumRotated(f: nat -> Complex, j: nat, n: nat)
    requires j < n
    ensures Sum(n, Rotated(f, j, n)) == Sum(n, f)
  {
    hide Add, Rotated;
    var g := Rotated(f, j, n);
    SumConcat(j, n - j, g);
    SumConcat(n - j, j, f);
    forall t: nat | t < j
      ensures g(t) == Shift(f, n - j)(t)
    {
      RotatedAt(f, j, n, t);
    }
    SumCong(j, g, Shift(f, n - j));
    forall t: nat | t < n - j
      ensures Shift(g, j)(t) == f(t)
    {
      RotatedAt(f, j, n, j + t);
    }
    SumCong(n - j, Shift(g, j), f);
    AddComm(Sum(j, Shift(f, n - j)), Sum(n - j, f));
  }

  lemma RotatedAt(f: nat -> Complex, j: nat, n: nat, t: nat)
    requires t < n && j <= n
    ensures Rotated(f, j, n)(t) == if t < j then Shift(f, n - j)(t) else f(t - j)
  {
    assert Around(t, j, n) == if t < j then n - j + t else t - j;
  }

  function ConvTerm(a: seq<Complex>, b: seq<Complex>, v: Complex, k: nat): (nat, nat) -> Complex {
    (t: nat, j: nat) => Mul(Mul(At(a, j), At(b, Around(t, j, |a|))), Pow(v, t * k))
  }

  lemma AroundBack(t: nat, j: nat, n: nat)
    requires t < n && j < n
    ensures Around(t, j, n) < n
    ensures Around(t, j, n) + j == t || Around(t, j, n) + j == t + n
  {}

  /** The power at `t` is the power at `j` times the power at `t - j`. */
  lemma TurnSplit(v: Complex, n: nat, t: nat, j: nat, k: nat)
    requires Pow(v, n) == ONE && t < n && j < n
    ensures Pow(v, t * k) == Mul(Pow(v, j * k), Pow(v, Around(t, j, n) * k))
  {
    hide Mul, Pow;
    var m := Around(t, j, n);
    AroundBack(t, j, n);
    PowAdd(v, j * k, m * k);
    assert j * k + m * k == (j + m) * k;
    if m + j == t + n {
      assert (t + n) * k == t * k + n * k;
      PowMod(v, n, t * k, k);
    }
  }

  /** Forward transforms turn circular convolution into pointwise products. */
  lemma ConvolutionAt(a: seq<Complex>, b: seq<Complex>, v: Complex, k: nat)
    requires |a| == |b| > 0 && Pow(v, |a|) == ONE
    ensures DftAt(Circular(a, b), v, k) == Mul(DftAt(a, v, k), DftAt(b, v, k))
  {
    hide Mul, Pow, Add, Around;
    var n := |a|;
    var f := ConvTerm(a, b, v, k);
    var c := Circular(a, b);
    forall t: nat | t < n
      ensures DftTerm(c, v, k)(t) == RowSums(f, n)(t)
    {
      forall j: nat | j < n
        ensures Row(f, t)(j) == Mul(Pow(v, t * k), CircTerm(a, b, t)(j))
      {
        MulComm(CircTerm(a, b, t)(j), Pow(v, t * k));
      }
      SumScale(n, Pow(v, t * k), CircTerm(a, b, t), Row(f, t));
      assert At(c, t) == Sum(n, CircTerm(a, b, t));
      MulComm(At(c, t), Pow(v, t * k));
    }
    SumCong(n, DftTerm(c, v, k), RowSums(f, n));
    SumExchange(n, n, f);
    forall j: nat | j < n
      ensures ColSums(f, n)(j) == Mul(DftAt(b, v, k), DftTerm(a, v, k)(j))
    {
      ConvolutionColumn(a, b, v, k, j);
    }
    SumScale(n, DftAt(b, v, k), DftTerm(a, v, k), ColSums(f, n));
    MulComm(DftAt(b, v, k), DftAt(a, v, k));
  }

  lemma ConvolutionColumn(a: seq<Complex>, b: seq<Complex>, v: Complex, k: nat, j: nat)
    requires |a| == |b| > 0 && Pow(v, |a|) == ONE && j < |a|
    ensures ColSums(ConvTerm(a, b, v, k), |a|)(j) == Mul(DftAt(b, v, k), DftTerm(a, v, k)(j))
  {
    hide Mul, Pow, Add, Around;
    var n, f := |a|, ConvTerm(a, b, v, k);
    var g := DftTerm(b, v, k);
    var d := DftTerm(a, v, k)(j);
    forall t: nat | t < n
      ensures Col(f, j)(t) == Mul(d, Rotated(g, j, n)(t))
    {
      TurnSplit(v, n, t, j, k);
      MulExchange(At(a, j), At(b, Around(t, j, n)), Pow(v, j * k), Pow(v, Around(t, j, n) * k));
    }
    SumScale(n, d, Rotated(g, j, n), Col(f, j));
    SumRotated(g, j, n);
    MulComm(d, Sum(n, g));
  }

  /** Multiplying two transforms and transforming back convolves, up to the length. */
  lemma ConvolutionTheorem(a: seq<Complex>, b: seq<Complex>, v: Complex)
    requires |a| == |b| && UnitRoot(v, |a|)
    ensures Transform(Pointwise(Transform(a, v), Transform(b, v)), Conj(v)) == Scaled(|a| as real, Circular(a, b))
  {
    hide DftAt, Mul, Conj, Pow;
    forall k: nat | k < |a|
      ensures DftAt(Circular(a, b), v, k) == Mul(DftAt(a, v, k), DftAt(b, v, k))
    {
      ConvolutionAt(a, b, v, k);
    }
    assert Pointwise(Transform(a, v), Transform(b, v)) == Transform(Circular(a, b), v);
    Inversion(Circular(a, b), v);
  }

  // ---------- conjugation ----------

  function SignedSeq(x: seq<Complex>, sign: int): seq<Complex> {
    seq(|x|, i requires 0 <= i < |x| => Signed(x[i], sign))
  }

  predicate Symmetric(b: seq<Complex>) {
    forall m: nat :: 0 < m < |b| ==> b[m] == b[|b| - m]
  }

  lemma BothWays(n: nat, m: nat, k: nat)
    requires m <= n
    ensures m * k + (n - m) * k == n * k
  {}

  lemma OppositeTurn(v: Complex, n: nat, m: nat, k: nat)
    requires Mul(v, Conj(v)) == ONE && Pow(v, n) == ONE && m <= n
    ensures Conj(Pow(v, m * k)) == Pow(v, (n - m) * k)
  {
    hide Mul, Pow, Conj;
    BothWays(n, m, k);
    PowAdd(v, m * k, (n - m) * k);
    PowMul(v, n, k);
    PowOne(k);
    PowCancel(v, m * k);
    PowConj(v, m * k);
    var z, y := Pow(v, m * k), Pow(v, (n - m) * k);
    MulComm(z, Conj(z));
    MulAssoc(Conj(z), z, y);
    MulOne(y);
    MulOne(Conj(z));
  }

  /** Conjugating a symmetric sequence conjugates its transform. */
  lemma SymmetricTransform(b: seq<Complex>, v: Complex, sign: int)
    requires Symmetric(b) && |b| > 0 && UnitRoot(v, |b|)
    ensures Transform(SignedSeq(b, sign), v) == SignedSeq(Transform(b, v), sign)
  {
    hide Mul, Pow, Conj;
    if sign > 0 {
      assert SignedSeq(b, sign) == b && SignedSeq(Transform(b, v), sign) == Transform(b, v);
    } else {
      forall k: nat | k < |b|
        ensures DftAt(SignedSeq(b, sign), v, k) == Conj(DftAt(b, v, k))
      {
        SymmetricAt(b, v, sign, k);
      }
    }
  }

  function Conjugated(g: nat -> Complex): nat -> Complex { (m: nat) => Conj(g(m)) }

  lemma SymmetricAt(b: seq<Complex>, v: Complex, sign: int, k: nat)
    requires Symmetric(b) && |b| > 0 && UnitRoot(v, |b|) && sign <= 0
    ensures DftAt(SignedSeq(b, sign), v, k) == Conj(DftAt(b, v, k))
  {
    hide Mul, Pow, Conj, Add, DftTerm, Symmetric, UnitRoot;
    var n := |b|;
    var f, g := DftTerm(SignedSeq(b, sign), v, k), DftTerm(b, v, k);
    var h := Conjugated(g);
    SumConj(n, g, h);
    SumConcat(1, n - 1, f);
    SumConcat(1, n - 1, h);
    forall m: nat | m < n
      ensures h(m) == if m == 0 then f(0) else f(n - m)
    {
      SymmetricTerm(b, v, sign, k, m);
    }
    SumCong(1, f, h);
    if n > 1 {
      SumBackwards(n - 1, Shift(f, 1));
      SumCong(n - 1, Shift(h, 1), Backwards(Shift(f, 1), n - 2));
    }
  }

  lemma SymmetricTerm(b: seq<Complex>, v: Complex, sign: int, k: nat, m: nat)
    requires Symmetric(b) && m < |b| && UnitRoot(v, |b|) && sign <= 0
    ensures Conj(DftTerm(b, v, k)(m)) == DftTerm(SignedSeq(b, sign), v, k)(if m == 0 then 0 else |b| - m)
  {
    hide Mul, Pow, Conj;
    var n := |b|;
    ConjMul(b[m], Pow(v, m * k));
    if m == 0 {
      ConjOne();
      assert 0 * k == 0 && Pow(v, 0) == ONE by { ZeroPower(v, k); }
    } else {
      OppositeTurn(v, n, m, k);
    }
  }

  lemma ZeroPower(v: Complex, k: nat)
    ensures 0 * k == 0 && Pow(v, 0) == ONE
  {}
}
