/**
 * One radix pass of the mixed-radix transform, stated abstractly, and the invariant that the
 * chain of passes keeps: what is left to be summed after the first factors are done.
 */
module RadixPass {
  import opened Basics
  import opened Complexes
  import opened Sums
  import opened Dft

  function Idx(a: nat, d: nat, b: nat): nat { a + d * b }

  function Times3(a: nat, b: nat, c: nat): nat { a * b * c }

  /** Entry `(a, b, c)` of a buffer whose middle dimension is `d`: the macros CC and CH. */
  function Cell(x: seq<Complex>, ido: nat, d: nat, a: nat, b: nat, c: nat): Complex {
    At(x, Idx(a, ido, Idx(b, d, c)))
  }

  /** The `ip` inputs that one butterfly combines. */
  function Column(x: seq<Complex>, ido: nat, ip: nat, i: nat, k: nat): (col: seq<Complex>)
    ensures |col| == ip
  {
    seq(ip, (b: nat) => Cell(x, ido, ip, i, b, k))
  }

  /** `y` holds the short transforms of the columns of `x`, each turned by its twiddle factor. */
  ghost predicate IsPass(x: seq<Complex>, y: seq<Complex>, w: Complex, ido: nat, ip: nat, l1: nat) {
    && |x| == |y| == Times3(l1, ip, ido)
    && forall i: nat, k: nat, j: nat :: i < ido && k < l1 && j < ip ==>
      Cell(y, ido, l1, i, k, j)
      == Mul(Pow(w, Times3(l1, i, j)), DftAt(Column(x, ido, ip, i, k), Pow(w, Prod(l1, ido)), j))
  }

  function RestTerm(x: seq<Complex>, w: Complex, l1: nat, len: nat, c: nat, q: nat): nat -> Complex {
    (i: nat) => Mul(At(x, Idx(i, len, c)), Pow(w, Times3(l1, i, q)))
  }

  /** The sum of `len` terms that still stands between buffer `x` and output `c + l1 * q`. */
  function Rest(x: seq<Complex>, w: Complex, l1: nat, len: nat, c: nat, q: nat): Complex {
    Sum(len, RestTerm(x, w, l1, len, c, q))
  }

  /** After factors of product `l1`: finishing the sums in `x` gives the transform of `input`. */
  ghost predicate Stage(x: seq<Complex>, input: seq<Complex>, w: Complex, l1: nat, len: nat) {
    && |x| == |input| == Prod(l1, len)
    && forall c: nat, q: nat :: c < l1 && q < len ==> Rest(x, w, l1, len, c, q) == DftAt(input, w, Idx(c, l1, q))
  }

  lemma UnitIndex(i: nat, d: nat)
    ensures Idx(i, d, 0) == i && Prod(1, d) == d && Prod(d, 1) == d && Idx(0, 1, i) == i
    ensures Times3(1, i, d) == Prod(i, d) && Times3(d, i, 0) == 0
  {}

  lemma StartTerm(x: seq<Complex>, w: Complex, q: nat, i: nat)
    ensures RestTerm(x, w, 1, |x|, 0, q)(i) == DftTerm(x, w, q)(i)
  {
    UnitIndex(i, |x|);
    UnitIndex(i, q);
    assert Prod(i, q) == i * q;
    hide Mul, Pow, Idx, Times3;
  }

  lemma StageStart(x: seq<Complex>, w: Complex)
    ensures Stage(x, x, w, 1, |x|)
  {
    hide Mul, Pow, Idx, Times3, Prod;
    UnitIndex(0, |x|);
    forall c: nat, q: nat | c < 1 && q < |x|
      ensures Rest(x, w, 1, |x|, c, q) == DftAt(x, w, Idx(c, 1, q))
    {
      UnitIndex(q, |x|);
      forall i: nat | i < |x|
        ensures RestTerm(x, w, 1, |x|, c, q)(i) == DftTerm(x, w, q)(i)
      {
        StartTerm(x, w, q, i);
      }
      SumCong(|x|, RestTerm(x, w, 1, |x|, c, q), DftTerm(x, w, q));
    }
  }

  lemma StageEnd(x: seq<Complex>, input: seq<Complex>, w: Complex)
    requires Stage(x, input, w, |input|, 1)
    ensures x == Transform(input, w)
  {
    hide Add, Mul;
    UnitIndex(0, |input|);
    forall c: nat | c < |x|
      ensures x[c] == DftAt(input, w, c)
    {
      var f := RestTerm(x, w, |x|, 1, c, 0);
      UnitIndex(0, |x|);
      UnitIndex(c, |x|);
      UnitIndex(c, 1);
      assert Rest(x, w, |x|, 1, c, 0) == DftAt(input, w, Idx(c, |x|, 0));
      assert Sum(1, f) == Add(Sum(0, f), f(0));
      assert f(0) == Mul(x[c], Pow(w, 0));
      MulOne(x[c]);
      AddZero(x[c]);
    }
  }

  lemma PassExponent(l1: nat, ip: nat, ido: nat, i: nat, b: nat, j: nat, q: nat)
    ensures Times3(l1, Idx(i, ido, b), Idx(j, ip, q))
         == (Times3(l1, i, j) + Times3(Prod(l1, ip), i, q))
            + (Prod(Prod(l1, ido), Prod(b, j)) + Prod(Times3(l1, ip, ido), Prod(b, q)))
  {
    calc {
      l1 * (i + ido * b) * (j + ip * q);
      (l1 * i + l1 * (ido * b)) * (j + ip * q);
      (l1 * i) * (j + ip * q) + (l1 * (ido * b)) * (j + ip * q);
      (l1 * i) * j + (l1 * i) * (ip * q) + (l1 * (ido * b)) * j + (l1 * (ido * b)) * (ip * q);
    }
    assert (l1 * i) * (ip * q) == (l1 * ip) * i * q;
    assert (l1 * (ido * b)) * j == (l1 * ido) * (b * j);
    assert (l1 * (ido * b)) * (ip * q) == (l1 * ip * ido) * (b * q);
  }

  lemma PassIndex(ido: nat, ip: nat, i: nat, b: nat, k: nat)
    ensures Idx(Idx(i, ido, b), Prod(ip, ido), k) == Idx(i, ido, Idx(b, ip, k))
  {}

  /** One term of the sum before the pass, split into what the pass absorbs and what is left. */
  lemma PassTerm(x: seq<Complex>, w: Complex, ido: nat, ip: nat, l1: nat, i: nat, k: nat, j: nat, q: nat, b: nat)
    requires Pow(w, Times3(l1, ip, ido)) == ONE
    requires b < ip
    ensures RestTerm(x, w, l1, Prod(ip, ido), k, Idx(j, ip, q))(Idx(i, ido, b))
         == Mul(Mul(Pow(w, Times3(l1, i, j)), Pow(w, Times3(Prod(l1, ip), i, q))),
                DftTerm(Column(x, ido, ip, i, k), Pow(w, Prod(l1, ido)), j)(b))
  {
    PassExponent(l1, ip, ido, i, b, j, q);
    PassIndex(ido, ip, i, b, k);
    TermSplit(Cell(x, ido, ip, i, b, k), w, Times3(l1, i, j), Times3(Prod(l1, ip), i, q), Prod(l1, ido), Prod(b, j),
              Times3(l1, ip, ido), Prod(b, q));
    hide Mul, Pow, Times3, Idx;
    assert Column(x, ido, ip, i, k)[b] == Cell(x, ido, ip, i, b, k);
  }

  lemma TermSplit(v: Complex, w: Complex, h1: nat, h2: nat, turn: nat, t: nat, n: nat, laps: nat)
    requires Pow(w, n) == ONE
    ensures Mul(v, Pow(w, (h1 + h2) + (Prod(turn, t) + Prod(n, laps))))
         == Mul(Mul(Pow(w, h1), Pow(w, h2)), Mul(v, Pow(Pow(w, turn), t)))
  {
    hide Mul, Pow;
    PowAdd(w, h1 + h2, Prod(turn, t) + Prod(n, laps));
    PowMod(w, n, Prod(turn, t), laps);
    PowMul(w, turn, t);
    PowAdd(w, h1, h2);
    var head, tail := Pow(w, h1 + h2), Pow(Pow(w, turn), t);
    MulAssoc(v, head, tail);
    MulComm(v, head);
    MulAssoc(head, v, tail);
  }

  /** The heart of the fast transform: a radix pass moves the invariant on by one factor. */
  lemma StageStep(x: seq<Complex>, y: seq<Complex>, input: seq<Complex>, w: Complex, ido: nat, ip: nat, l1: nat)
    requires l1 > 0 && ip > 0
    requires Pow(w, Times3(l1, ip, ido)) == ONE
    requires Stage(x, input, w, l1, Prod(ip, ido))
    requires IsPass(x, y, w, ido, ip, l1)
    ensures Stage(y, input, w, Prod(l1, ip), ido)
  {
    hide Prod, Idx, Times3, Rest, DftAt, IsPass;
    PassSize(x, y, w, ido, ip, l1);
    var l2, len := Prod(l1, ip), Prod(ip, ido);
    forall c: nat, q: nat | c < l2 && q < ido
      ensures Rest(y, w, l2, ido, c, q) == DftAt(input, w, Idx(c, l2, q))
    {
      var k, j := Split(c, l1, ip);
      StageStepAt(x, y, w, ido, ip, l1, k, j, q);
      Bound(j, ip, q, ido);
      Regroup(k, l1, j, ip, q);
    }
    Reassociate(l1, ip, ido);
  }

  lemma PassSize(x: seq<Complex>, y: seq<Complex>, w: Complex, ido: nat, ip: nat, l1: nat)
    requires IsPass(x, y, w, ido, ip, l1)
    ensures |x| == |y| == Times3(l1, ip, ido)
  {}

  lemma Reassociate(l1: nat, ip: nat, ido: nat)
    ensures Times3(l1, ip, ido) == Prod(Prod(l1, ip), ido) == Prod(l1, Prod(ip, ido))
  {}

  lemma Split(c: nat, l1: nat, ip: nat) returns (k: nat, j: nat)
    requires l1 > 0 && c < Prod(l1, ip)
    ensures k < l1 && j < ip && c == Idx(k, l1, j)
  {
    k, j := c % l1, c / l1;
    assert c == c % l1 + l1 * j;
    if j >= ip {
      MulMonotone(l1, ip, j);
    }
  }

  lemma MulMonotone(a: nat, b: nat, c: nat)
    requires b <= c
    ensures a * b <= a * c
  {}

  lemma Bound(j: nat, ip: nat, q: nat, ido: nat)
    requires j < ip && q < ido
    ensures Idx(j, ip, q) < Prod(ip, ido)
  {
    MulMonotone(ip, q + 1, ido);
  }

  lemma Regroup(k: nat, l1: nat, j: nat, ip: nat, q: nat)
    ensures Idx(k, l1, Idx(j, ip, q)) == Idx(Idx(k, l1, j), Prod(l1, ip), q)
  {}

  lemma StageStepAt(x: seq<Complex>, y: seq<Complex>, w: Complex, ido: nat, ip: nat, l1: nat, k: nat, j: nat, q: nat)
    requires Pow(w, Times3(l1, ip, ido)) == ONE
    requires IsPass(x, y, w, ido, ip, l1)
    requires k < l1 && j < ip && q < ido
    ensures Rest(y, w, Prod(l1, ip), ido, Idx(k, l1, j), q) == Rest(x, w, l1, Prod(ip, ido), k, Idx(j, ip, q))
  {
    hide Mul, Pow, Add, Idx, Times3;
    var f := RestTerm(x, w, l1, Prod(ip, ido), k, Idx(j, ip, q));
    SumByResidue(ido, ip, f);
    forall i: nat | i < ido
      ensures RestTerm(y, w, Prod(l1, ip), ido, Idx(k, l1, j), q)(i) == StrideSums(f, ido, ip)(i)
    {
      StageTerm(x, y, w, ido, ip, l1, k, j, q, i);
    }
    SumCong(ido, RestTerm(y, w, Prod(l1, ip), ido, Idx(k, l1, j), q), StrideSums(f, ido, ip));
  }

  lemma StageTerm(x: seq<Complex>, y: seq<Complex>, w: Complex, ido: nat, ip: nat, l1: nat, k: nat, j: nat, q: nat,
                  i: nat)
    requires Pow(w, Times3(l1, ip, ido)) == ONE
    requires IsPass(x, y, w, ido, ip, l1)
    requires k < l1 && j < ip && q < ido && i < ido
    ensures RestTerm(y, w, Prod(l1, ip), ido, Idx(k, l1, j), q)(i)
         == StrideSums(RestTerm(x, w, l1, Prod(ip, ido), k, Idx(j, ip, q)), ido, ip)(i)
  {
    var f := RestTerm(x, w, l1, Prod(ip, ido), k, Idx(j, ip, q));
    var col, r := Column(x, ido, ip, i, k), Pow(w, Prod(l1, ido));
    var t, u := Pow(w, Times3(l1, i, j)), Pow(w, Times3(Prod(l1, ip), i, q));
    forall b: nat | b < ip
      ensures Stride(f, i, ido)(b) == Mul(Mul(t, u), DftTerm(col, r, j)(b))
    {
      PassTerm(x, w, ido, ip, l1, i, k, j, q, b);
    }
    hide Mul, Pow, Add, Idx, Times3;
    SumScale(ip, Mul(t, u), DftTerm(col, r, j), Stride(f, i, ido));
    assert Cell(y, ido, l1, i, k, j) == Mul(t, DftAt(col, r, j));
    MulComm(t, u);
    MulAssoc(u, t, DftAt(col, r, j));
    MulComm(u, Mul(t, DftAt(col, r, j)));
  }
}
