/** How the cells of the generic real passes hold the parts of complex columns. */
module RealParts {
  import opened Complexes
  import opened Sums
  import opened Dft
  import opened Butterflies
  import opened PassG
  import opened RealRows

  /** Cell 0 holds a real value, every other pair of cells a complex one. */
  function Part(z: Complex, i: nat): real { if i == 0 || i % 2 == 1 then z.re else z.im }

  /** In the rows of differences cell 0 holds an imaginary value. */
  function OddSide(z: Complex, i: nat): real { if i % 2 == 1 then z.re else z.im }

  /** A quarter turn backwards. */
  function TurnBack(z: Complex): Complex { Neg(Turn(z)) }

  lemma PartSum(a: Complex, b: Complex, c: real, i: nat)
    ensures Part(Add(a, Scale(c, b)), i) == Part(a, i) + Times(c, Part(b, i))
    ensures OddSide(Add(a, Scale(c, b)), i) == OddSide(a, i) + Times(c, OddSide(b, i))
    ensures Part(Add(a, b), i) == Part(a, i) + Part(b, i)
  {}

  lemma {:induction false} EvenMixPart(r: Complex, v: Complex, a: nat -> real, col: seq<Complex>, l: nat, t: nat,
                                       i: nat)
    requires v == r || v == Conj(r)
    requires a(0) == Part(At(col, 0), i) && forall u: nat :: 0 < u <= t ==> a(u) == Part(SumOf(col, u - 1), i)
    ensures EvenMix(r, a, l, t) == Part(EvenUpTo(col, v, l, t), i)
  {
    if t == 0 {
      AddZero(At(col, 0));
    } else {
      EvenMixPart(r, v, a, col, l, t - 1, i);
      OneMore(col, v, l, t, t * l);
      PowConj(r, t * l);
      ConjParts(Pow(r, t * l));
      PartSum(EvenUpTo(col, v, l, t - 1), SumOf(col, t - 1), Pow(v, t * l).re, i);
      hide *;
      EvenMixStep(r, a, l, t);
    }
  }

  lemma EvenMixStep(r: Complex, a: nat -> real, l: nat, t: nat)
    requires t > 0
    ensures EvenMix(r, a, l, t) == EvenMix(r, a, l, t - 1) + Times(Pow(r, t * l).re, a(t))
  {}

  lemma OddMixStep(r: Complex, a: nat -> real, ip: nat, l: nat, t: nat)
    requires 0 < t <= ip
    ensures OddMix(r, a, ip, l, t) == OddMix(r, a, ip, l, t - 1) + Times(Pow(r, t * l).im, a(ip - t))
  {}

  lemma TurnForth(s: real, d: Complex)
    ensures Turn(Scale(-s, d)) == Scale(s, TurnBack(d))
    ensures TurnBack(Turn(d)) == d && Turn(TurnBack(d)) == d
  {}

  lemma TurnBackAdd(a: Complex, b: Complex)
    ensures TurnBack(Add(a, Turn(b))) == Add(TurnBack(a), b)
  {}

  lemma NothingMixed(r: Complex, v: Complex, a: nat -> real, col: seq<Complex>, ip: nat, l: nat, i: nat)
    ensures OddMix(r, a, ip, l, 0) == OddSide(OddUpTo(col, v, l, 0), i) == OddSide(TurnBack(OddUpTo(col, v, l, 0)), i)
              == 0.0
    ensures OddUpTo(col, v, l, 0).re == 0.0
  {}

  /** Forward: differences are held turned back, and mixing them gives the odd part. */
  lemma {:induction false} OddMixForward(r: Complex, a: nat -> real, col: seq<Complex>, ip: nat, l: nat, t: nat, i: nat)
    requires t <= ip && forall row: nat :: ip - t <= row < ip ==>
               a(row) == OddSide(TurnBack(DiffOf(col, ip - row - 1)), i)
    ensures OddMix(r, a, ip, l, t) == OddSide(OddUpTo(col, Conj(r), l, t), i)
  {
    hide *;
    if t == 0 {
      NothingMixed(r, Conj(r), a, col, ip, l, i);
    } else {
      OddMixForward(r, a, col, ip, l, t - 1, i);
      OneMore(col, Conj(r), l, t, t * l);
      PowConj(r, t * l);
      ConjParts(Pow(r, t * l));
      var s, d := Pow(r, t * l).im, DiffOf(col, t - 1);
      TurnForth(s, d);
      PartSum(OddUpTo(col, Conj(r), l, t - 1), TurnBack(d), s, i);
      OddMixStep(r, a, ip, l, t);
    }
  }

  /** Backward: differences are held as they are, and mixing them gives the odd part turned back. */
  lemma {:induction false} OddMixBackward(r: Complex, a: nat -> real, col: seq<Complex>, ip: nat, l: nat, t: nat,
                                          i: nat)
    requires t <= ip && forall row: nat :: ip - t <= row < ip ==> a(row) == OddSide(DiffOf(col, ip - row - 1), i)
    ensures OddMix(r, a, ip, l, t) == OddSide(TurnBack(OddUpTo(col, r, l, t)), i)
  {
    hide *;
    if t == 0 {
      NothingMixed(r, r, a, col, ip, l, i);
    } else {
      OddMixBackward(r, a, col, ip, l, t - 1, i);
      OneMore(col, r, l, t, t * l);
      var s, d := Pow(r, t * l).im, DiffOf(col, t - 1);
      TurnBackAdd(OddUpTo(col, r, l, t - 1), Scale(s, d));
      PartSum(TurnBack(OddUpTo(col, r, l, t - 1)), d, s, i);
      OddMixStep(r, a, ip, l, t);
    }
  }

  lemma {:induction false} PlainMixPart(a: nat -> real, col: seq<Complex>, t: nat, i: nat)
    requires a(0) == Part(At(col, 0), i) && forall u: nat :: 0 < u <= t ==> a(u) == Part(SumOf(col, u - 1), i)
    ensures PlainMix(a, t) == Part(PlainSum(col, t), i)
  {
    if t == 0 {
      AddZero(At(col, 0));
    } else {
      PlainMixPart(a, col, t - 1, i);
      PartSum(PlainSum(col, t - 1), SumOf(col, t - 1), 0.0, i);
      AddAssoc(At(col, 0), Sum(t - 1, SumTerm(col)), SumOf(col, t - 1));
      hide Part, SumOf, Add;
    }
  }

  // ---------- columns of real values ----------

  ghost predicate AllReal(col: seq<Complex>) { forall j :: 0 <= j < |col| ==> col[j].im == 0.0 }

  lemma RealSums(col: seq<Complex>, j: nat)
    requires AllReal(col)
    ensures SumOf(col, j).im == 0.0 && DiffOf(col, j).im == 0.0 && At(col, j).im == 0.0
  {}

  lemma KeepsSides(a: Complex, b: Complex, c: real)
    ensures a.im == 0.0 && b.im == 0.0 ==> Add(a, Scale(c, b)).im == 0.0
    ensures a.re == 0.0 && b.im == 0.0 ==> Add(a, Turn(Scale(c, b))).re == 0.0
  {}

  lemma NoTerms(col: seq<Complex>, v: Complex, l: nat)
    ensures EvenUpTo(col, v, l, 0) == At(col, 0)
  {
    AddZero(At(col, 0));
  }

  /** Of real values the even part is real and the odd part imaginary. */
  lemma {:induction false} RealParts(col: seq<Complex>, v: Complex, l: nat, t: nat)
    requires AllReal(col)
    ensures EvenUpTo(col, v, l, t).im == 0.0 && OddUpTo(col, v, l, t).re == 0.0
  {
    hide *;
    if t == 0 {
      NoTerms(col, v, l);
      NothingMixed(v, v, _ => 0.0, col, 0, l, 0);
      RealSums(col, 0);
    } else {
      RealParts(col, v, l, t - 1);
      OneMore(col, v, l, t, t * l);
      RealSums(col, t - 1);
      KeepsSides(EvenUpTo(col, v, l, t - 1), SumOf(col, t - 1), Pow(v, t * l).re);
      KeepsSides(OddUpTo(col, v, l, t - 1), DiffOf(col, t - 1), Pow(v, t * l).im);
    }
  }
}
