/** The discrete Fourier transform by its definition, and the roots of unity it is taken over. */
module Dft {
  import opened Complexes
  import opened Sums

  /** A primitive n-th root of unity on the unit circle. */
  ghost predicate UnitRoot(w: Complex, n: nat) {
    && n > 0
    && Mul(w, Conj(w)) == ONE
    && Pow(w, n) == ONE
    && forall d: nat :: 0 < d < n ==> Pow(w, d) != ONE
  }

  /** A root like `exp(2 pi i / n)`: a quarter turn of it, where there is one, is `I` and not `-I`. */
  ghost predicate PrincipalRoot(w: Complex, n: nat) {
    && UnitRoot(w, n)
    && (n % 4 == 0 ==> Pow(w, n / 4) == I)
  }

  /** The backward transform (sign 1) turns with `w`, the forward one (sign -1) against it. */
  function Signed(w: Complex, sign: int): Complex {
    if sign > 0 then w else Conj(w)
  }

  function At(x: seq<Complex>, i: nat): Complex { if i < |x| then x[i] else ZERO }

  function DftTerm(x: seq<Complex>, w: Complex, k: nat): nat -> Complex {
    (i: nat) => Mul(At(x, i), Pow(w, i * k))
  }

  function DftAt(x: seq<Complex>, w: Complex, k: nat): Complex {
    Sum(|x|, DftTerm(x, w, k))
  }

  function Transform(x: seq<Complex>, w: Complex): seq<Complex> {
    seq(|x|, (k: nat) => DftAt(x, w, k))
  }

  function Scaled(r: real, x: seq<Complex>): seq<Complex> {
    seq(|x|, i requires 0 <= i < |x| => Scale(r, x[i]))
  }

  // ---------- roots ----------

  lemma ConjTwice(a: Complex)
    ensures Conj(Conj(a)) == a
  {}

  lemma ConjRoot(w: Complex, n: nat)
    requires UnitRoot(w, n)
    ensures UnitRoot(Conj(w), n)
  {
    hide Mul, Conj;
    ConjTwice(w);
    MulComm(w, Conj(w));
    PowConj(w, n);
    ConjOne();
    forall d: nat | 0 < d < n
      ensures Pow(Conj(w), d) != ONE
    {
      PowConj(w, d);
      ConjTwice(Pow(w, d));
    }
  }

  lemma SignedPow(w: Complex, sign: int, k: nat)
    ensures Signed(Pow(w, k), sign) == Pow(Signed(w, sign), k)
  {
    PowConj(w, k);
  }

  /** The root family `exp(2 pi i / n)` that the library takes from `my_sincosm1pi` and its literals. */
  ghost predicate RootFamily(root: nat -> Complex) {
    && (forall n: nat :: n > 0 ==> PrincipalRoot(root(n), n))
    && (forall n: nat, m: nat :: n > 0 && m > 0 ==> Refines(root, n, m))
  }

  ghost predicate Refines(root: nat -> Complex, n: nat, m: nat) {
    Pow(root(n * m), m) == root(n)
  }

  lemma SignedRoot(w: Complex, n: nat, sign: int)
    requires UnitRoot(w, n)
    ensures UnitRoot(Signed(w, sign), n)
  {
    ConjRoot(w, n);
  }

  lemma {:induction false} PowOfMul(a: Complex, b: Complex, k: nat)
    ensures Pow(Mul(a, b), k) == Mul(Pow(a, k), Pow(b, k))
  {
    hide Mul;
    if k == 0 {
      MulOne(ONE);
    } else {
      PowOfMul(a, b, k - 1);
      MulExchange(a, b, Pow(a, k - 1), Pow(b, k - 1));
    }
  }

  lemma MulExchange(a: Complex, b: Complex, c: Complex, d: Complex)
    ensures Mul(Mul(a, b), Mul(c, d)) == Mul(Mul(a, c), Mul(b, d))
  {
    hide *;
    MulAssoc(a, b, Mul(c, d));
    MulAssoc(b, c, d);
    MulComm(b, c);
    MulAssoc(c, b, d);
    MulAssoc(a, c, Mul(b, d));
  }

  lemma PowCancel(w: Complex, a: nat)
    requires Mul(w, Conj(w)) == ONE
    ensures Mul(Pow(w, a), Pow(Conj(w), a)) == ONE
  {
    PowOfMul(w, Conj(w), a);
    PowOne(a);
  }

  /** The turn from index `j` to index `i` is trivial only when the two are the same. */
  lemma TurnBetween(w: Complex, n: nat, i: nat, j: nat)
    requires UnitRoot(w, n)
    requires i < n && j < n
    ensures Pow(Mul(Pow(w, i), Pow(Conj(w), j)), n) == ONE
    ensures Mul(Pow(w, i), Pow(Conj(w), j)) == ONE <==> i == j
  {
    hide Mul, Conj;
    var v := Conj(w);
    var r := Mul(Pow(w, i), Pow(v, j));
    ConjRoot(w, n);
    PowOfMul(Pow(w, i), Pow(v, j), n);
    PowSwap(w, i, n);
    PowSwap(v, j, n);
    MulOne(ONE);
    if i <= j {
      PowCancel(w, i);
      PowAdd(v, i, j - i);
      MulAssoc(Pow(w, i), Pow(v, i), Pow(v, j - i));
      MulOne(Pow(v, j - i));
      assert r == Pow(v, j - i);
    } else {
      PowCancel(w, j);
      PowAdd(w, i - j, j);
      MulAssoc(Pow(w, i - j), Pow(w, j), Pow(v, j));
      MulOne(Pow(w, i - j));
      assert r == Pow(w, i - j);
    }
  }

  lemma PowSwap(w: Complex, i: nat, n: nat)
    requires Pow(w, n) == ONE
    ensures Pow(Pow(w, i), n) == ONE
  {
    PowMul(w, i, n);
    PowMul(w, n, i);
    assert i * n == n * i;
    PowOne(i);
  }

  // ---------- orthogonality ----------

  function Powers(r: Complex): nat -> Complex { (k: nat) => Pow(r, k) }

  lemma {:induction false} Geometric(r: Complex, n: nat)
    ensures Add(Sum(n, Powers(r)), Pow(r, n)) == Add(ONE, Mul(r, Sum(n, Powers(r))))
  {
    hide Mul, Add;
    if n == 0 {
      AddZero(ONE);
      MulZero(r);
    } else {
      var s := Sum(n - 1, Powers(r));
      Geometric(r, n - 1);
      MulAdd(r, s, Pow(r, n - 1));
      AddAssoc(ONE, Mul(r, s), Pow(r, n));
    }
  }

  lemma SubtractSides(s: Complex, t: Complex)
    requires Add(s, ONE) == Add(ONE, t)
    ensures s == t
  {}

  lemma SubVanishes(s: Complex, t: Complex)
    ensures Sub(s, t) == ZERO <==> s == t
  {}

  lemma MulSub(a: Complex, b: Complex, c: Complex)
    ensures Mul(Sub(a, b), c) == Sub(Mul(a, c), Mul(b, c))
  {}

  /** The powers of a non-trivial n-th root of unity cancel. */
  lemma PowersCancel(r: Complex, n: nat)
    requires Pow(r, n) == ONE && r != ONE
    ensures Sum(n, Powers(r)) == ZERO
  {
    hide *;
    var s := Sum(n, Powers(r));
    Geometric(r, n);
    SubtractSides(s, Mul(r, s));
    MulSub(r, ONE, s);
    MulOne(s);
    SubVanishes(s, s);
    SubVanishes(r, ONE);
    NoZeroDivisors(Sub(r, ONE), s);
  }

  lemma {:induction false} PowersOfOne(n: nat)
    ensures Sum(n, Powers(ONE)) == Complex(n as real, 0.0)
  {
    hide Mul;
    if n != 0 {
      PowersOfOne(n - 1);
      PowOne(n - 1);
      assert Powers(ONE)(n - 1) == ONE;
    }
  }

  // ---------- inversion ----------

  function BackTerm(x: seq<Complex>, w: Complex, j: nat): (nat, nat) -> Complex {
    (k: nat, i: nat) => Mul(At(x, i), Pow(Mul(Pow(w, i), Pow(Conj(w), j)), k))
  }

  /** Transforming back against the same root gives the input, times its length. */
  lemma Inversion(x: seq<Complex>, w: Complex)
    requires UnitRoot(w, |x|)
    ensures Transform(Transform(x, w), Conj(w)) == Scaled(|x| as real, x)
  {
    var n := |x|;
    forall j: nat | j < n
      ensures DftAt(Transform(x, w), Conj(w), j) == Scale(n as real, x[j])
    {
      InversionAt(x, w, j);
    }
  }

  lemma InversionAt(x: seq<Complex>, w: Complex, j: nat)
    requires UnitRoot(w, |x|) && j < |x|
    ensures DftAt(Transform(x, w), Conj(w), j) == Scale(|x| as real, x[j])
  {
    hide Add, Mul, Pow, Conj;
    var n := |x|;
    var v := Conj(w);
    var y := Transform(x, w);
    var f := BackTerm(x, w, j);
    forall k: nat | k < n
      ensures DftTerm(y, v, j)(k) == RowSums(f, n)(k)
    {
      forall i: nat | i < n
        ensures Row(f, k)(i) == Mul(Pow(v, k * j), DftTerm(x, w, k)(i))
      {
        PowOfMul(Pow(w, i), Pow(v, j), k);
        PowMul(w, i, k);
        PowMul(v, j, k);
        assert j * k == k * j;
        MulAssoc(At(x, i), Pow(w, i * k), Pow(v, k * j));
        MulComm(Mul(At(x, i), Pow(w, i * k)), Pow(v, k * j));
      }
      SumScale(n, Pow(v, k * j), DftTerm(x, w, k), Row(f, k));
      assert At(y, k) == DftAt(x, w, k);
      MulComm(At(y, k), Pow(v, k * j));
    }
    SumCong(n, DftTerm(y, v, j), RowSums(f, n));
    SumExchange(n, n, f);
    forall i: nat | i < n
      ensures ColSums(f, n)(i) == if i == j then Scale(n as real, x[j]) else ZERO
    {
      var r := Mul(Pow(w, i), Pow(v, j));
      TurnBetween(w, n, i, j);
      SumScale(n, At(x, i), Powers(r), Col(f, i));
      if i == j {
        PowersOfOne(n);
        MulComm(At(x, i), Complex(n as real, 0.0));
        ScaleIsMul(n as real, At(x, i));
      } else {
        PowersCancel(r, n);
        MulZero(At(x, i));
      }
    }
    SumSingle(n, j, ColSums(f, n));
  }

  /** The table of powers of a root. */
  function TrigTable(w: Complex, n: nat): seq<Complex> { seq(n, (m: nat) => Pow(w, m)) }

  lemma TrigTableAt(w: Complex, n: nat)
    ensures |TrigTable(w, n)| == n && forall m: nat :: m < n ==> At(TrigTable(w, n), m) == Pow(w, m)
  {
    hide Pow;
  }
}
