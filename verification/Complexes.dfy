/** Exact complex arithmetic: the `cmplx` struct of pocketfft with rounding left out. */
module Complexes {

  datatype Complex = Complex(re: real, im: real)

  const ZERO := Complex(0.0, 0.0)
  const ONE := Complex(1.0, 0.0)
  const I := Complex(0.0, 1.0)

  function Add(a: Complex, b: Complex): Complex { Complex(a.re + b.re, a.im + b.im) }

  function Sub(a: Complex, b: Complex): Complex { Complex(a.re - b.re, a.im - b.im) }

  function Neg(a: Complex): Complex { Complex(-a.re, -a.im) }

  function Mul(a: Complex, b: Complex): Complex {
    Complex(a.re * b.re - a.im * b.im, a.re * b.im + a.im * b.re)
  }

  function Conj(a: Complex): Complex { Complex(a.re, -a.im) }

  function Scale(r: real, a: Complex): Complex { Complex(r * a.re, r * a.im) }

  function Pow(w: Complex, k: nat): Complex {
    if k == 0 then ONE else Mul(w, Pow(w, k - 1))
  }

  // ---------- ring laws ----------

  lemma AddComm(a: Complex, b: Complex)
    ensures Add(a, b) == Add(b, a)
  {}

  lemma AddAssoc(a: Complex, b: Complex, c: Complex)
    ensures Add(Add(a, b), c) == Add(a, Add(b, c))
  {}

  lemma AddExchange(a: Complex, b: Complex, c: Complex, d: Complex)
    ensures Add(Add(a, b), Add(c, d)) == Add(Add(a, c), Add(b, d))
  {}

  lemma AddZero(a: Complex)
    ensures Add(a, ZERO) == a && Add(ZERO, a) == a
  {}

  lemma MulComm(a: Complex, b: Complex)
    ensures Mul(a, b) == Mul(b, a)
  {}

  lemma MulAssoc(a: Complex, b: Complex, c: Complex)
    ensures Mul(Mul(a, b), c) == Mul(a, Mul(b, c))
  {}

  lemma MulOne(a: Complex)
    ensures Mul(a, ONE) == a && Mul(ONE, a) == a
  {}

  lemma MulZero(a: Complex)
    ensures Mul(a, ZERO) == ZERO && Mul(ZERO, a) == ZERO
  {}

  lemma MulAdd(c: Complex, a: Complex, b: Complex)
    ensures Mul(c, Add(a, b)) == Add(Mul(c, a), Mul(c, b))
  {}

  lemma MulScale(r: real, a: Complex, b: Complex)
    ensures Mul(Scale(r, a), b) == Scale(r, Mul(a, b))
  {}

  lemma ConjMul(a: Complex, b: Complex)
    ensures Conj(Mul(a, b)) == Mul(Conj(a), Conj(b))
  {}

  function Times(x: real, y: real): real { x * y }

  function Norm2(a: Complex): real { Times(a.re, a.re) + Times(a.im, a.im) }

  lemma TimesPositive(x: real, y: real)
    requires x > 0.0 && y > 0.0
    ensures Times(x, y) > 0.0
  {}

  lemma TimesNegated(x: real, y: real)
    ensures Times(-x, -y) == Times(x, y)
    ensures Times(0.0, y) == 0.0
  {}

  lemma TimesSquare(x: real)
    ensures Times(x, x) >= 0.0
    ensures x != 0.0 ==> Times(x, x) > 0.0
  {
    hide Times;
    TimesNegated(x, x);
    if x > 0.0 {
      TimesPositive(x, x);
    } else if x < 0.0 {
      TimesPositive(-x, -x);
    }
  }

  lemma NormPositive(a: Complex)
    requires a != ZERO
    ensures Norm2(a) > 0.0
  {
    hide Times;
    TimesSquare(a.re);
    TimesSquare(a.im);
  }

  lemma ConjTimesSelf(a: Complex)
    ensures Mul(Conj(a), a) == Complex(Norm2(a), 0.0)
  {}

  lemma ScaleIsMul(r: real, a: Complex)
    ensures Mul(Complex(r, 0.0), a) == Scale(r, a)
  {}

  lemma ScaleNonzero(r: real, a: Complex)
    requires r != 0.0 && Scale(r, a) == ZERO
    ensures a == ZERO
  {}

  /** The complex numbers have no zero divisors. */
  lemma NoZeroDivisors(a: Complex, b: Complex)
    requires Mul(a, b) == ZERO
    requires a != ZERO
    ensures b == ZERO
  {
    hide *;
    MulAssoc(Conj(a), a, b);
    ConjTimesSelf(a);
    MulZero(Conj(a));
    ScaleIsMul(Norm2(a), b);
    NormPositive(a);
    ScaleNonzero(Norm2(a), b);
  }

  // ---------- powers ----------

  lemma {:induction false} PowAdd(w: Complex, a: nat, b: nat)
    ensures Pow(w, a + b) == Mul(Pow(w, a), Pow(w, b))
  {
    hide Mul;
    if a == 0 {
      MulOne(Pow(w, b));
    } else {
      PowAdd(w, a - 1, b);
      MulAssoc(w, Pow(w, a - 1), Pow(w, b));
    }
  }

  lemma {:induction false} PowMul(w: Complex, a: nat, b: nat)
    ensures a * b >= 0
    ensures Pow(w, a * b) == Pow(Pow(w, a), b)
  {
    hide Mul;
    if b != 0 {
      PowMul(w, a, b - 1);
      assert a * b == a + a * (b - 1);
      PowAdd(w, a, a * (b - 1));
    }
  }

  lemma {:induction false} PowOne(k: nat)
    ensures Pow(ONE, k) == ONE
  {
    hide Mul;
    if k != 0 {
      PowOne(k - 1);
      MulOne(ONE);
    }
  }

  lemma ConjOne()
    ensures Conj(ONE) == ONE
  {}

  lemma {:induction false} PowConj(w: Complex, k: nat)
    ensures Pow(Conj(w), k) == Conj(Pow(w, k))
  {
    hide Mul, Conj;
    if k == 0 {
      ConjOne();
    } else {
      PowConj(w, k - 1);
      ConjMul(w, Pow(w, k - 1));
    }
  }

  /** Exponents of an n-th root of unity only matter modulo n. */
  lemma PowMod(w: Complex, n: nat, a: nat, m: nat)
    requires Pow(w, n) == ONE
    ensures n * m >= 0
    ensures Pow(w, a + n * m) == Pow(w, a)
  {
    hide Mul;
    PowAdd(w, a, n * m);
    PowMul(w, n, m);
    PowOne(m);
    MulOne(Pow(w, a));
  }
}
