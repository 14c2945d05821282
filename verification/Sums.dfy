/** Finite sums of complex terms and the rearrangements the transforms rely on. */
module Sums {
  import opened Complexes

  function Sum(n: nat, f: nat -> Complex): Complex {
    if n == 0 then ZERO else Add(Sum(n - 1, f), f(n - 1))
  }

  lemma {:induction false} SumCong(n: nat, f: nat -> Complex, g: nat -> Complex)
    requires forall i: nat :: i < n ==> f(i) == g(i)
    ensures Sum(n, f) == Sum(n, g)
  {
    hide Add;
    if n != 0 { SumCong(n - 1, f, g); }
  }

  lemma {:induction false} SumZero(n: nat, f: nat -> Complex)
    requires forall i: nat :: i < n ==> f(i) == ZERO
    ensures Sum(n, f) == ZERO
  {
    if n != 0 { SumZero(n - 1, f); }
  }

  lemma {:induction false} SumAdd(n: nat, f: nat -> Complex, g: nat -> Complex, h: nat -> Complex)
    requires forall i: nat :: i < n ==> h(i) == Add(f(i), g(i))
    ensures Sum(n, h) == Add(Sum(n, f), Sum(n, g))
  {
    hide Add;
    if n == 0 {
      AddZero(ZERO);
    } else {
      SumAdd(n - 1, f, g, h);
      AddExchange(Sum(n - 1, f), Sum(n - 1, g), f(n - 1), g(n - 1));
    }
  }

  lemma {:induction false} SumScale(n: nat, c: Complex, f: nat -> Complex, h: nat -> Complex)
    requires forall i: nat :: i < n ==> h(i) == Mul(c, f(i))
    ensures Sum(n, h) == Mul(c, Sum(n, f))
  {
    hide Add, Mul;
    if n == 0 {
      MulZero(c);
    } else {
      SumScale(n - 1, c, f, h);
      MulAdd(c, Sum(n - 1, f), f(n - 1));
    }
  }

  lemma {:induction false} SumConj(n: nat, f: nat -> Complex, h: nat -> Complex)
    requires forall i: nat :: i < n ==> h(i) == Conj(f(i))
    ensures Sum(n, h) == Conj(Sum(n, f))
  {
    if n != 0 { SumConj(n - 1, f, h); }
  }

  /** Only one term is not zero. */
  lemma {:induction false} SumSingle(n: nat, at: nat, f: nat -> Complex)
    requires at < n
    requires forall i: nat :: i < n && i != at ==> f(i) == ZERO
    ensures Sum(n, f) == f(at)
  {
    hide Add;
    if at == n - 1 {
      SumZero(n - 1, f);
      AddZero(f(at));
    } else {
      SumSingle(n - 1, at, f);
      AddZero(f(at));
    }
  }

  function Shift(f: nat -> Complex, a: nat): nat -> Complex { (i: nat) => f(a + i) }

  lemma {:induction false} SumConcat(a: nat, b: nat, f: nat -> Complex)
    ensures Sum(a + b, f) == Add(Sum(a, f), Sum(b, Shift(f, a)))
  {
    hide Add;
    if b == 0 {
      AddZero(Sum(a, f));
    } else {
      SumConcat(a, b - 1, f);
      AddAssoc(Sum(a, f), Sum(b - 1, Shift(f, a)), f(a + b - 1));
    }
  }

  /** The terms of `f` at `i`, `i + a`, `i + 2a`, ... */
  function Stride(f: nat -> Complex, i: nat, a: nat): nat -> Complex { (b: nat) => f(i + a * b) }

  function StrideSums(f: nat -> Complex, a: nat, p: nat): nat -> Complex {
    (i: nat) => Sum(p, Stride(f, i, a))
  }

  /** A sum of `a * p` terms, gathered by residue modulo `a`. */
  lemma {:induction false} SumByResidue(a: nat, p: nat, f: nat -> Complex)
    ensures a * p >= 0
    ensures Sum(a * p, f) == Sum(a, StrideSums(f, a, p))
  {
    hide Add;
    if p == 0 {
      SumZero(a, StrideSums(f, a, 0));
    } else {
      SumByResidue(a, p - 1, f);
      assert a * p == a * (p - 1) + a;
      SumConcat(a * (p - 1), a, f);
      forall i: nat | i < a
        ensures StrideSums(f, a, p)(i) == Add(StrideSums(f, a, p - 1)(i), Shift(f, a * (p - 1))(i))
      {
        assert Stride(f, i, a)(p - 1) == f(i + a * (p - 1));
      }
      SumAdd(a, StrideSums(f, a, p - 1), Shift(f, a * (p - 1)), StrideSums(f, a, p));
    }
  }

  function Row(f: (nat, nat) -> Complex, i: nat): nat -> Complex { (j: nat) => f(i, j) }

  function Col(f: (nat, nat) -> Complex, j: nat): nat -> Complex { (i: nat) => f(i, j) }

  function RowSums(f: (nat, nat) -> Complex, m: nat): nat -> Complex { (i: nat) => Sum(m, Row(f, i)) }

  function ColSums(f: (nat, nat) -> Complex, n: nat): nat -> Complex { (j: nat) => Sum(n, Col(f, j)) }

  /** Summing by rows and by columns agree. */
  lemma {:induction false} SumExchange(n: nat, m: nat, f: (nat, nat) -> Complex)
    ensures Sum(n, RowSums(f, m)) == Sum(m, ColSums(f, n))
  {
    hide Add;
    if n == 0 {
      SumZero(m, ColSums(f, 0));
    } else {
      SumExchange(n - 1, m, f);
      forall j: nat | j < m
        ensures ColSums(f, n)(j) == Add(ColSums(f, n - 1)(j), Row(f, n - 1)(j))
      {
        assert Col(f, j)(n - 1) == Row(f, n - 1)(j);
      }
      SumAdd(m, ColSums(f, n - 1), Row(f, n - 1), ColSums(f, n));
    }
  }

  function Backwards(f: nat -> Complex, top: nat): nat -> Complex {
    (i: nat) => if i <= top then f(top - i) else ZERO
  }

  lemma {:induction false} SumBackwards(n: nat, f: nat -> Complex)
    requires n > 0
    ensures Sum(n, f) == Sum(n, Backwards(f, n - 1))
  {
    hide Add;
    if n == 1 {
      assert Sum(1, f) == Add(Sum(0, f), f(0));
      assert Sum(1, Backwards(f, 0)) == Add(Sum(0, Backwards(f, 0)), f(0));
    } else {
      SumBackwards(n - 1, f);
      SumConcat(1, n - 1, Backwards(f, n - 1));
      SumCong(n - 1, Shift(Backwards(f, n - 1), 1), Backwards(f, n - 2));
      assert Sum(1, Backwards(f, n - 1)) == Add(ZERO, f(n - 1)) by {
        assert Sum(0, Backwards(f, n - 1)) == ZERO;
      }
      AddZero(f(n - 1));
      AddComm(Sum(n - 1, f), f(n - 1));
    }
  }

  function Folded(f: nat -> Complex, h: nat): nat -> Complex {
    (i: nat) => if i < h then Add(f(i + 1), f(2 * h - i)) else ZERO
  }

  /** The `2h + 1` terms as the middle term 0 plus `h` mirror pairs. */
  lemma SumFolded(h: nat, f: nat -> Complex)
    ensures Sum(2 * h + 1, f) == Add(f(0), Sum(h, Folded(f, h)))
  {
    hide Add;
    SumConcat(1, 2 * h, f);
    assert Sum(1, f) == f(0) by {
      assert Sum(0, f) == ZERO;
      AddZero(f(0));
    }
    var g := Shift(f, 1);
    SumConcat(h, h, g);
    if h == 0 {
      AddZero(ZERO);
    } else {
      var t := Shift(g, h);
      SumBackwards(h, t);
      forall i: nat | i < h
        ensures Folded(f, h)(i) == Add(g(i), Backwards(t, h - 1)(i))
      {
        assert Backwards(t, h - 1)(i) == t(h - 1 - i) == f(2 * h - i);
      }
      SumAdd(h, g, Backwards(t, h - 1), Folded(f, h));
    }
  }
}
