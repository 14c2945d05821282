/** The hard-coded passes of radix 2, 3, 4, 5, 7 and 11, writing one buffer from the other. */
module Passes {
  import opened Basics
  import opened Complexes
  import opened Dft
  import opened RadixPass
  import opened Butterflies

  /** WA: the twiddle factor of output `j` at position `i`. */
  function TwiddleIndex(ido: nat, i: nat, j: nat): nat
    requires i > 0 && j > 0 && ido > 0
  {
    Idx(i - 1, ido - 1, j - 1)
  }

  /** `wa` holds `w^(l1*i*j)` for every output but the first of every position but the first. */
  ghost predicate Twiddles(wa: seq<Complex>, w: Complex, ido: nat, ip: nat, l1: nat) {
    forall i: nat, j: nat :: 0 < i < ido && 0 < j < ip ==>
      At(wa, TwiddleIndex(ido, i, j)) == Pow(w, Times3(l1, i, j))
  }

  /** MULPMSIGNC, A_EQ_B_MUL_C and A_EQ_CB_MUL_C: the first output and position stay unturned. */
  function Twisted(wa: seq<Complex>, sign: int, ido: nat, i: nat, j: nat, v: Complex): Complex
    requires i < ido
  {
    if i == 0 || j == 0 then v else Mul(Signed(At(wa, TwiddleIndex(ido, i, j)), sign), v)
  }

  function PassValue(x: seq<Complex>, bf: seq<Complex> -> seq<Complex>, wa: seq<Complex>, sign: int,
                     ido: nat, ip: nat, i: nat, k: nat, j: nat): Complex
    requires i < ido
  {
    Twisted(wa, sign, ido, i, j, At(bf(Column(x, ido, ip, i, k)), j))
  }

  predicate Before(k': nat, i': nat, j': nat, k: nat, i: nat, j: nat) {
    k' < k || (k' == k && (i' < i || (i' == i && j' < j)))
  }

  /** Everything the loops have passed before position `(k, i, j)` is in place. */
  ghost predicate Written(y: seq<Complex>, x: seq<Complex>, bf: seq<Complex> -> seq<Complex>, wa: seq<Complex>,
                          sign: int, ido: nat, ip: nat, l1: nat, k: nat, i: nat, j: nat)
  {
    forall i': nat, k': nat, j': nat :: i' < ido && k' < l1 && j' < ip && Before(k', i', j', k, i, j) ==>
      Cell(y, ido, l1, i', k', j') == PassValue(x, bf, wa, sign, ido, ip, i', k', j')
  }

  lemma IdxBound(a: nat, d: nat, b: nat, n: nat)
    requires a < d && b < n
    ensures Idx(a, d, b) < Prod(d, n)
  {
    MulMonotone(d, b + 1, n);
  }

  lemma IdxInjective(a: nat, d: nat, b: nat, a': nat, b': nat)
    requires a < d && a' < d
    requires Idx(a, d, b) == Idx(a', d, b')
    ensures a == a' && b == b'
  {
    if b < b' {
      MulMonotone(d, b + 1, b');
    } else if b' < b {
      MulMonotone(d, b' + 1, b);
    }
  }

  lemma CellIndex(ido: nat, l1: nat, ip: nat, i: nat, k: nat, j: nat)
    requires i < ido && k < l1 && j < ip
    ensures Idx(i, ido, Idx(k, l1, j)) < Times3(l1, ip, ido)
  {
    IdxBound(k, l1, j, ip);
    IdxBound(i, ido, Idx(k, l1, j), Prod(l1, ip));
    assert Prod(ido, Prod(l1, ip)) == Times3(l1, ip, ido);
  }

  lemma WrittenStep(y: seq<Complex>, x: seq<Complex>, bf: seq<Complex> -> seq<Complex>, wa: seq<Complex>, sign: int,
                    ido: nat, ip: nat, l1: nat, k: nat, i: nat, j: nat, at: nat)
    requires |y| == Times3(l1, ip, ido) && i < ido && k < l1 && j < ip
    requires at == Idx(i, ido, Idx(k, l1, j)) < |y|
    requires Written(y, x, bf, wa, sign, ido, ip, l1, k, i, j)
    ensures Written(y[at := PassValue(x, bf, wa, sign, ido, ip, i, k, j)], x, bf, wa, sign, ido, ip, l1, k, i, j + 1)
  {
    hide Idx, Times3, PassValue;
    var v := PassValue(x, bf, wa, sign, ido, ip, i, k, j);
    forall i': nat, k': nat, j': nat | i' < ido && k' < l1 && j' < ip && Before(k', i', j', k, i, j + 1)
      ensures Cell(y[at := v], ido, l1, i', k', j') == PassValue(x, bf, wa, sign, ido, ip, i', k', j')
    {
      CellIndex(ido, l1, ip, i', k', j');
      if i' != i || k' != k || j' != j {
        if Idx(i', ido, Idx(k', l1, j')) == at {
          IdxInjective(i', ido, Idx(k', l1, j'), i, Idx(k, l1, j));
          IdxInjective(k', l1, j', k, j);
        }
        assert Cell(y, ido, l1, i', k', j') == PassValue(x, bf, wa, sign, ido, ip, i', k', j');
      }
    }
  }

  /** The loops every hard-coded pass shares, around its own butterfly. */
  method FixedPass(ido: nat, l1: nat, ip: nat, cc: array<Complex>, ch: array<Complex>, wa: seq<Complex>, sign: int,
                   bf: seq<Complex> -> seq<Complex>)
    requires cc != ch && cc.Length == ch.Length == Times3(l1, ip, ido)
    requires forall x: seq<Complex> :: |x| == ip ==> |bf(x)| == ip
    modifies ch
    ensures forall i: nat, k: nat, j: nat :: i < ido && k < l1 && j < ip ==>
      Cell(ch[..], ido, l1, i, k, j) == PassValue(cc[..], bf, wa, sign, ido, ip, i, k, j)
  {
    hide Idx, Times3, PassValue, Cell;
    ghost var x := cc[..];
    for k := 0 to l1
      invariant cc[..] == x
      invariant Written(ch[..], x, bf, wa, sign, ido, ip, l1, k, 0, 0)
    {
      for i := 0 to ido
        invariant cc[..] == x
        invariant Written(ch[..], x, bf, wa, sign, ido, ip, l1, k, i, 0)
      {
        var y := bf(Column(cc[..], ido, ip, i, k));
        for j := 0 to ip
          invariant cc[..] == x
          invariant Written(ch[..], x, bf, wa, sign, ido, ip, l1, k, i, j)
        {
          CellIndex(ido, l1, ip, i, k, j);
          var at := Idx(i, ido, Idx(k, l1, j));
          WrittenStep(ch[..], x, bf, wa, sign, ido, ip, l1, k, i, j, at);
          ghost var was := ch[..];
          ch[at] := Twisted(wa, sign, ido, i, j, y[j]);
          PassValueIs(x, bf, wa, sign, ido, ip, i, k, j);
          assert ch[..] == was[at := PassValue(x, bf, wa, sign, ido, ip, i, k, j)];
        }
      }
    }
  }

  lemma PassValueIs(x: seq<Complex>, bf: seq<Complex> -> seq<Complex>, wa: seq<Complex>, sign: int,
                    ido: nat, ip: nat, i: nat, k: nat, j: nat)
    requires i < ido && j < ip && |bf(Column(x, ido, ip, i, k))| == ip
    ensures PassValue(x, bf, wa, sign, ido, ip, i, k, j)
         == Twisted(wa, sign, ido, i, j, bf(Column(x, ido, ip, i, k))[j])
  {}

  /** A butterfly that transforms each column turns the shared loops into a radix pass. */
  lemma FixedPassIsPass(x: seq<Complex>, y: seq<Complex>, bf: seq<Complex> -> seq<Complex>, wa: seq<Complex>, sign: int,
                        w: Complex, ido: nat, ip: nat, l1: nat)
    requires |x| == |y| == Times3(l1, ip, ido)
    requires Twiddles(wa, w, ido, ip, l1)
    requires forall i: nat, k: nat, j: nat :: i < ido && k < l1 && j < ip ==>
      Cell(y, ido, l1, i, k, j) == PassValue(x, bf, wa, sign, ido, ip, i, k, j)
    requires forall col: seq<Complex>, j: nat :: |col| == ip && j < ip ==>
      At(bf(col), j) == DftAt(col, Pow(Signed(w, sign), Prod(l1, ido)), j)
    ensures IsPass(x, y, Signed(w, sign), ido, ip, l1)
  {
    hide Idx, Times3, Prod, Cell, DftAt, Mul, Pow, Signed, TwiddleIndex;
    var v := Signed(w, sign);
    forall i: nat, k: nat, j: nat | i < ido && k < l1 && j < ip
      ensures Cell(y, ido, l1, i, k, j)
           == Mul(Pow(v, Times3(l1, i, j)), DftAt(Column(x, ido, ip, i, k), Pow(v, Prod(l1, ido)), j))
    {
      var d := At(bf(Column(x, ido, ip, i, k)), j);
      if i == 0 || j == 0 {
        NoTurn(v, l1, i, j);
        MulOne(d);
      } else {
        SignedPow(w, sign, Times3(l1, i, j));
      }
    }
  }

  lemma NoTurn(w: Complex, l1: nat, i: nat, j: nat)
    requires i == 0 || j == 0
    ensures Pow(w, Times3(l1, i, j)) == ONE
  {
    assert Times3(l1, i, j) == 0;
  }

  /** A power of a root of unity is a root of unity of the remaining order. */
  lemma RootOfRoot(w: Complex, n: nat, m: nat, p: nat)
    requires UnitRoot(w, n) && n == m * p
    ensures p > 0 && UnitRoot(Pow(w, m), p)
  {
    hide Mul, Pow;
    PowUnit(w, m);
    PowMul(w, m, p);
    forall d: nat | 0 < d < p
      ensures Pow(Pow(w, m), d) != ONE
    {
      PowMul(w, m, d);
      ProductInside(m, d, p);
    }
  }

  lemma ProductInside(m: nat, d: nat, p: nat)
    requires 0 < d < p && m * p > 0
    ensures 0 < m * d < m * p
  {}

  /** The root that the columns of a pass are transformed over. */
  lemma ColumnRoot(w: Complex, sign: int, l1: nat, ip: nat, ido: nat)
    requires UnitRoot(w, Times3(l1, ip, ido))
    ensures UnitRoot(Pow(Signed(w, sign), Prod(l1, ido)), ip)
  {
    SignedRoot(w, Times3(l1, ip, ido), sign);
    assert Times3(l1, ip, ido) == Prod(l1, ido) * ip;
    hide Times3, Prod, Mul, Pow, Signed;
    RootOfRoot(Signed(w, sign), Times3(l1, ip, ido), Prod(l1, ido), ip);
  }

  method Pass2(ido: nat, l1: nat, cc: array<Complex>, ch: array<Complex>, wa: seq<Complex>, sign: int, ghost w: Complex)
    requires cc != ch && cc.Length == ch.Length == Times3(l1, 2, ido)
    requires UnitRoot(w, Times3(l1, 2, ido)) && Twiddles(wa, w, ido, 2, l1)
    modifies ch
    ensures IsPass(cc[..], ch[..], Signed(w, sign), ido, 2, l1)
  {
    hide *;
    FixedPass(ido, l1, 2, cc, ch, wa, sign, Butterfly2);
    ghost var r := Pow(Signed(w, sign), Prod(l1, ido));
    ColumnRoot(w, sign, l1, 2, ido);
    forall col: seq<Complex>, j: nat | |col| == 2 && j < 2
      ensures At(Butterfly2(col), j) == DftAt(col, r, j)
    {
      Butterfly2Correct(col, r, j);
      AtIs(Butterfly2(col), j);
    }
    FixedPassIsPass(cc[..], ch[..], Butterfly2, wa, sign, w, ido, 2, l1);
  }

  lemma AtIs(x: seq<Complex>, i: nat)
    requires i < |x|
    ensures At(x, i) == x[i]
  {}

  lemma QuarterRoot(w: Complex, sign: int, l1: nat, ido: nat)
    requires PrincipalRoot(w, Times3(l1, 4, ido))
    ensures Pow(Signed(w, sign), Prod(l1, ido)) == Signed(I, sign)
  {
    assert Times3(l1, 4, ido) == 4 * Prod(l1, ido);
    SignedPow(w, sign, Prod(l1, ido));
  }

  method Pass4(ido: nat, l1: nat, cc: array<Complex>, ch: array<Complex>, wa: seq<Complex>, sign: int, ghost w: Complex)
    requires cc != ch && cc.Length == ch.Length == Times3(l1, 4, ido)
    requires PrincipalRoot(w, Times3(l1, 4, ido)) && Twiddles(wa, w, ido, 4, l1)
    modifies ch
    ensures IsPass(cc[..], ch[..], Signed(w, sign), ido, 4, l1)
  {
    hide *;
    var bf := (x: seq<Complex>) => Butterfly4(x, sign);
    FixedPass(ido, l1, 4, cc, ch, wa, sign, bf);
    ghost var r := Pow(Signed(w, sign), Prod(l1, ido));
    QuarterRoot(w, sign, l1, ido);
    forall col: seq<Complex>, j: nat | |col| == 4 && j < 4
      ensures At(bf(col), j) == DftAt(col, r, j)
    {
      Butterfly4Correct(col, sign, j);
      AtIs(bf(col), j);
    }
    FixedPassIsPass(cc[..], ch[..], bf, wa, sign, w, ido, 4, l1);
  }

  /** The cosine and sine literals of a hard-coded radix `p`, without their rounding. */
  function Literals(r: Complex, p: nat): seq<Complex> { seq(p / 2 + 1, (m: nat) => Pow(r, m)) }

  function SignedAll(tw: seq<Complex>, sign: int): seq<Complex> {
    seq(|tw|, i requires 0 <= i < |tw| => Signed(tw[i], sign))
  }

  lemma SignedLiterals(r: Complex, p: nat, sign: int)
    ensures HalfTable(SignedAll(Literals(r, p), sign), Signed(r, sign), p)
  {
    hide Pow;
    forall m: nat | m <= p / 2
      ensures At(SignedAll(Literals(r, p), sign), m) == Pow(Signed(r, sign), m)
    {
      SignedPow(r, sign, m);
    }
  }

  /** pass3b, pass3f, pass5b, pass5f, pass7 and pass11: radix `ip` with coefficient orders `rows`. */
  method OddPass(ido: nat, l1: nat, ip: nat, rows: seq<seq<int>>, r: Complex,
                 cc: array<Complex>, ch: array<Complex>, wa: seq<Complex>, sign: int, ghost w: Complex)
    requires cc != ch && cc.Length == ch.Length == Times3(l1, ip, ido)
    requires FoldsRightly(ip, rows) && r == Pow(w, Prod(l1, ido))
    requires UnitRoot(w, Times3(l1, ip, ido)) && Twiddles(wa, w, ido, ip, l1)
    modifies ch
    ensures IsPass(cc[..], ch[..], Signed(w, sign), ido, ip, l1)
  {
    hide Pow, Mul, Conj, Signed, Prod, Times3, Literals, SignedAll, Twiddles, IsPass, OddButterfly, HalfTable, DftAt,
         At, PassValue, Cell, FoldsRightly;
    var tw := SignedAll(Literals(r, ip), sign);
    SignedLiterals(r, ip, sign);
    SignedPow(w, sign, Prod(l1, ido));
    var bf := (x: seq<Complex>) => OddButterfly(x, tw, rows);
    FixedPass(ido, l1, ip, cc, ch, wa, sign, bf);
    ghost var v := Pow(Signed(w, sign), Prod(l1, ido));
    ColumnRoot(w, sign, l1, ip, ido);
    forall col: seq<Complex>, j: nat | |col| == ip && j < ip
      ensures At(bf(col), j) == DftAt(col, v, j)
    {
      OddButterflyCorrect(col, tw, rows, v, j);
      AtIs(bf(col), j);
    }
    FixedPassIsPass(cc[..], ch[..], bf, wa, sign, w, ido, ip, l1);
  }
}
