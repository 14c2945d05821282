/** The real passes, stated abstractly, and the invariants their loops keep. */
module RealStages {
  import opened Basics
  import opened Complexes
  import opened Sums
  import opened Dft
  import opened RadixPass
  import opened Passes
  import opened RealSpectra

  lemma Swap4(a: Complex, b: Complex, c: Complex, d: Complex)
    ensures Mul(Mul(a, b), Mul(c, d)) == Mul(Mul(a, d), Mul(c, b))
  {
    hide Mul;
    MulComm(c, d);
    MulExchange(a, b, d, c);
    MulComm(b, c);
  }

  lemma Rotate3(a: Complex, s: Complex, t: Complex)
    ensures Mul(Mul(a, s), t) == Mul(Mul(a, t), s)
  {
    hide Mul;
    MulAssoc(a, s, t);
    MulComm(s, t);
    MulAssoc(a, t, s);
  }

  // ---------- forward: spectra of subsequences are merged ----------

  /** Frequency `q` of the `ip` spectra that are merged into block `k`, each turned. */
  function Spread(x: seq<real>, v: Complex, ido: nat, ip: nat, l1: nat, k: nat, q: nat): (col: seq<Complex>)
    ensures |col| == ip
  {
    seq(ip, (j: nat) => Mul(Pow(v, Times3(l1, q, j)), BlockBin(x, ido, Idx(k, l1, j), q)))
  }

  function ForwardBin(x: seq<real>, v: Complex, ido: nat, ip: nat, l1: nat, k: nat, q: nat, p: nat): Complex {
    DftAt(Spread(x, v, ido, ip, l1, k, q), Pow(v, Prod(l1, ido)), p)
  }

  /** `y` holds, block by block, the spectra merged from those in `x`. */
  ghost predicate IsRealForward(x: seq<real>, y: seq<real>, v: Complex, ido: nat, ip: nat, l1: nat) {
    && |x| == |y| == Times3(l1, ip, ido)
    && forall k: nat, q: nat, p: nat :: k < l1 && q < ido && p < ip ==>
         BlockBin(y, Prod(ido, ip), k, Idx(q, ido, p)) == ForwardBin(x, v, ido, ip, l1, k, q, p)
  }

  function GatherTerm(input: seq<Complex>, v: Complex, l1: nat, b: nat, m: nat): nat -> Complex {
    (t: nat) => Mul(At(input, Idx(b, l1, t)), Pow(v, Times3(l1, m, t)))
  }

  /** Block `b` holds the spectrum of every `l1`-th value from `b` on. */
  ghost predicate RealStage(x: seq<real>, input: seq<Complex>, v: Complex, l1: nat, len: nat) {
    && |x| == |input| == Prod(l1, len)
    && forall b: nat, m: nat :: b < l1 && m < len ==> BlockBin(x, len, b, m) == Sum(len, GatherTerm(input, v, l1, b, m))
  }

  lemma GatherSplit(input: seq<Complex>, v: Complex, ido: nat, ip: nat, l1: nat, k: nat, q: nat, p: nat, j: nat, t: nat)
    requires Pow(v, Times3(l1, ip, ido)) == ONE
    ensures GatherTerm(input, v, l1, k, Idx(q, ido, p))(Idx(j, ip, t))
         == Mul(Mul(Pow(v, Times3(l1, q, j)), Pow(Pow(v, Prod(l1, ido)), Prod(p, j))),
                GatherTerm(input, v, Prod(l1, ip), Idx(k, l1, j), q)(t))
  {
    PassExponent(l1, ip, ido, q, p, j, t);
    Regroup(k, l1, j, ip, t);
    hide Mul, Pow, Idx, Times3, Prod;
    var z := At(input, Idx(k, l1, Idx(j, ip, t)));
    TermSplit(z, v, Times3(l1, q, j), Times3(Prod(l1, ip), q, t), Prod(l1, ido), Prod(p, j), Times3(l1, ip, ido),
              Prod(p, t));
    Swap4(Pow(v, Times3(l1, q, j)), Pow(v, Times3(Prod(l1, ip), q, t)), z, Pow(Pow(v, Prod(l1, ido)), Prod(p, j)));
  }

  lemma ForwardTerm(x: seq<real>, input: seq<Complex>, v: Complex, ido: nat, ip: nat, l1: nat, k: nat, q: nat, p: nat,
                    j: nat)
    requires Pow(v, Times3(l1, ip, ido)) == ONE && RealStage(x, input, v, Prod(l1, ip), ido)
    requires k < l1 && q < ido && p < ip && j < ip
    ensures StrideSums(GatherTerm(input, v, l1, k, Idx(q, ido, p)), ip, ido)(j)
         == DftTerm(Spread(x, v, ido, ip, l1, k, q), Pow(v, Prod(l1, ido)), p)(j)
  {
    var f, g := GatherTerm(input, v, l1, k, Idx(q, ido, p)), GatherTerm(input, v, Prod(l1, ip), Idx(k, l1, j), q);
    var a, t := Pow(v, Times3(l1, q, j)), Pow(Pow(v, Prod(l1, ido)), Prod(p, j));
    IdxBound(k, l1, j, ip);
    assert BlockBin(x, ido, Idx(k, l1, j), q) == Sum(ido, g);
    forall s: nat | s < ido
      ensures Stride(f, j, ip)(s) == Mul(Mul(a, t), g(s))
    {
      GatherSplit(input, v, ido, ip, l1, k, q, p, j, s);
    }
    assert j * p == Prod(p, j);
    hide Mul, Pow, Add, Times3, Prod, Sum, GatherTerm, Idx, RealStage;
    SumScale(ido, Mul(a, t), g, Stride(f, j, ip));
    assert Spread(x, v, ido, ip, l1, k, q)[j] == Mul(a, Sum(ido, g));
    Rotate3(a, Sum(ido, g), t);
  }

  /** One pass merges `ip` times as long. */
  lemma ForwardStep(x: seq<real>, y: seq<real>, input: seq<Complex>, v: Complex, ido: nat, ip: nat, l1: nat)
    requires ido > 0 && Pow(v, Times3(l1, ip, ido)) == ONE
    requires RealStage(x, input, v, Prod(l1, ip), ido) && IsRealForward(x, y, v, ido, ip, l1)
    ensures RealStage(y, input, v, l1, Prod(ido, ip))
  {
    Reassociate3(l1, ip, ido);
    forall b: nat, m: nat | b < l1 && m < Prod(ido, ip)
      ensures BlockBin(y, Prod(ido, ip), b, m) == Sum(Prod(ido, ip), GatherTerm(input, v, l1, b, m))
    {
      var q, p := Split(m, ido, ip);
      var f, g := GatherTerm(input, v, l1, b, m), DftTerm(Spread(x, v, ido, ip, l1, b, q), Pow(v, Prod(l1, ido)), p);
      SumByResidue(ip, ido, f);
      assert ip * ido == Prod(ido, ip);
      forall j: nat | j < ip
        ensures StrideSums(f, ip, ido)(j) == g(j)
      {
        ForwardTerm(x, input, v, ido, ip, l1, b, q, p, j);
      }
      SumCong(ip, StrideSums(f, ip, ido), g);
    }
  }

  lemma Reassociate3(l1: nat, ip: nat, ido: nat)
    ensures Times3(l1, ip, ido) == Prod(Prod(l1, ip), ido) == Prod(l1, Prod(ido, ip))
  {
    Reassociate(l1, ip, ido);
    assert Prod(ido, ip) == Prod(ip, ido);
  }

  function AsComplex(x: seq<real>): (z: seq<Complex>)
    ensures |z| == |x|
  {
    seq(|x|, i requires 0 <= i < |x| => Complex(x[i], 0.0))
  }

  lemma OneTerm(f: nat -> Complex)
    ensures Sum(1, f) == f(0)
  {
    assert Sum(0, f) == ZERO;
    AddZero(f(0));
    hide Add;
  }

  lemma SingleBin(x: seq<real>, b: nat)
    requires b < |x|
    ensures BlockBin(x, 1, b, 0) == AsComplex(x)[b]
  {}

  /** Before the first pass every block is a single value. */
  lemma ForwardStart(x: seq<real>, v: Complex)
    ensures RealStage(x, AsComplex(x), v, |x|, 1)
  {
    forall b: nat, m: nat | b < |x| && m < 1
      ensures BlockBin(x, 1, b, m) == Sum(1, GatherTerm(AsComplex(x), v, |x|, b, m))
    {
      SingleBin(x, b);
      OneTerm(GatherTerm(AsComplex(x), v, |x|, b, 0));
      assert Idx(b, |x|, 0) == b && Times3(|x|, 0, 0) == 0;
      MulOne(AsComplex(x)[b]);
      hide Mul, Sum, AsComplex, BlockBin;
    }
  }

  /** After the last pass the one block is the spectrum of the input. */
  lemma ForwardEnd(x: seq<real>, input: seq<Complex>, v: Complex, m: nat)
    requires RealStage(x, input, v, 1, |x|) && m < |x|
    ensures BlockBin(x, |x|, 0, m) == DftAt(input, v, m)
  {
    var f, g := GatherTerm(input, v, 1, 0, m), DftTerm(input, v, m);
    forall t: nat | t < |x|
      ensures f(t) == g(t)
    {
      assert Idx(0, 1, t) == t && Times3(1, m, t) == t * m;
      hide Mul, Pow;
    }
    SumCong(|x|, f, g);
  }

  // ---------- backward: a spectrum is split into spectra of subsequences ----------

  /** The frequencies of block `k` that leave the same remainder. */
  function Bins(x: seq<real>, ido: nat, ip: nat, k: nat, q: nat): (col: seq<Complex>)
    ensures |col| == ip
  {
    seq(ip, (p: nat) => BlockBin(x, Prod(ido, ip), k, Idx(q, ido, p)))
  }

  function BackwardBin(x: seq<real>, w: Complex, ido: nat, ip: nat, l1: nat, k: nat, j: nat, q: nat): Complex {
    Mul(Pow(w, Times3(l1, q, j)), DftAt(Bins(x, ido, ip, k, q), Pow(w, Prod(l1, ido)), j))
  }

  /** `y` holds, block by block, the parts the spectra in `x` split into. */
  ghost predicate IsRealBackward(x: seq<real>, y: seq<real>, w: Complex, ido: nat, ip: nat, l1: nat) {
    && |x| == |y| == Times3(l1, ip, ido)
    && forall k: nat, j: nat, q: nat :: k < l1 && j < ip && q < ido ==>
         BlockBin(y, ido, Idx(k, l1, j), q) == BackwardBin(x, w, ido, ip, l1, k, j, q)
  }

  function FoldTerm(spec: seq<Complex>, w: Complex, len: nat, b: nat, m: nat): nat -> Complex {
    (s: nat) => Mul(At(spec, Idx(m, len, s)), Pow(w, Prod(b, Idx(m, len, s))))
  }

  /** Block `b` holds the frequencies of `spec`, turned back by `b`, summed by remainder. */
  ghost predicate BackStage(x: seq<real>, spec: seq<Complex>, w: Complex, l1: nat, len: nat) {
    && |x| == |spec| == Prod(l1, len)
    && forall b: nat, m: nat :: b < l1 && m < len ==> BlockBin(x, len, b, m) == Sum(l1, FoldTerm(spec, w, len, b, m))
  }

  lemma FoldExponent(l1: nat, ip: nat, ido: nat, k: nat, j: nat, q: nat, p: nat, s: nat)
    ensures Prod(Idx(k, l1, j), Idx(q, ido, Idx(p, ip, s)))
         == (Times3(l1, q, j) + Prod(k, Idx(q, ido, Idx(p, ip, s))))
            + (Prod(Prod(l1, ido), Prod(p, j)) + Prod(Times3(l1, ip, ido), Prod(j, s)))
  {
    var m := q + ido * (p + ip * s);
    assert (k + l1 * j) * m == k * m + (l1 * j) * m;
    assert m == q + ido * p + ido * (ip * s) by {
      assert ido * (p + ip * s) == ido * p + ido * (ip * s);
    }
    assert (l1 * j) * m == (l1 * j) * q + (l1 * j) * (ido * p) + (l1 * j) * (ido * (ip * s));
    assert (l1 * j) * q == (l1 * q) * j;
    assert (l1 * j) * (ido * p) == (l1 * ido) * (p * j);
    assert (l1 * j) * (ido * (ip * s)) == (l1 * ip * ido) * (j * s);
  }

  lemma FoldSplit(spec: seq<Complex>, w: Complex, ido: nat, ip: nat, l1: nat, k: nat, j: nat, q: nat, p: nat, s: nat)
    requires Pow(w, Times3(l1, ip, ido)) == ONE
    ensures FoldTerm(spec, w, ido, Idx(k, l1, j), q)(Idx(p, ip, s))
         == Mul(Mul(Pow(w, Times3(l1, q, j)), Pow(Pow(w, Prod(l1, ido)), Prod(p, j))),
                FoldTerm(spec, w, Prod(ido, ip), k, Idx(q, ido, p))(s))
  {
    FoldExponent(l1, ip, ido, k, j, q, p, s);
    Regroup(q, ido, p, ip, s);
    hide Mul, Pow, Idx, Times3, Prod;
    var m := Idx(q, ido, Idx(p, ip, s));
    var z := At(spec, m);
    TermSplit(z, w, Times3(l1, q, j), Prod(k, m), Prod(l1, ido), Prod(p, j), Times3(l1, ip, ido), Prod(j, s));
    Swap4(Pow(w, Times3(l1, q, j)), Pow(w, Prod(k, m)), z, Pow(Pow(w, Prod(l1, ido)), Prod(p, j)));
  }

  lemma BackwardTerm(x: seq<real>, spec: seq<Complex>, w: Complex, ido: nat, ip: nat, l1: nat, k: nat, j: nat, q: nat,
                     p: nat)
    requires Pow(w, Times3(l1, ip, ido)) == ONE && BackStage(x, spec, w, l1, Prod(ido, ip))
    requires k < l1 && q < ido && p < ip && j < ip
    ensures StrideSums(FoldTerm(spec, w, ido, Idx(k, l1, j), q), ip, l1)(p)
         == Mul(Pow(w, Times3(l1, q, j)), DftTerm(Bins(x, ido, ip, k, q), Pow(w, Prod(l1, ido)), j)(p))
  {
    var f, g := FoldTerm(spec, w, ido, Idx(k, l1, j), q), FoldTerm(spec, w, Prod(ido, ip), k, Idx(q, ido, p));
    var a, t := Pow(w, Times3(l1, q, j)), Pow(Pow(w, Prod(l1, ido)), Prod(p, j));
    IdxBound(q, ido, p, ip);
    assert Bins(x, ido, ip, k, q)[p] == Sum(l1, g);
    forall s: nat | s < l1
      ensures Stride(f, p, ip)(s) == Mul(Mul(a, t), g(s))
    {
      FoldSplit(spec, w, ido, ip, l1, k, j, q, p, s);
    }
    assert p * j == Prod(p, j);
    hide Mul, Pow, Add, Times3, Prod, Sum, FoldTerm, Idx, BackStage, Bins;
    SumScale(l1, Mul(a, t), g, Stride(f, p, ip));
    MulAssoc(a, t, Sum(l1, g));
    MulComm(t, Sum(l1, g));
  }

  /** One pass splits every block into `ip`. */
  lemma BackwardStep(x: seq<real>, y: seq<real>, spec: seq<Complex>, w: Complex, ido: nat, ip: nat, l1: nat)
    requires l1 > 0 && Pow(w, Times3(l1, ip, ido)) == ONE
    requires BackStage(x, spec, w, l1, Prod(ido, ip)) && IsRealBackward(x, y, w, ido, ip, l1)
    ensures BackStage(y, spec, w, Prod(l1, ip), ido)
  {
    Reassociate3(l1, ip, ido);
    forall b: nat, q: nat | b < Prod(l1, ip) && q < ido
      ensures BlockBin(y, ido, b, q) == Sum(Prod(l1, ip), FoldTerm(spec, w, ido, b, q))
    {
      var k, j := Split(b, l1, ip);
      var f, g := FoldTerm(spec, w, ido, b, q), DftTerm(Bins(x, ido, ip, k, q), Pow(w, Prod(l1, ido)), j);
      SumByResidue(ip, l1, f);
      assert ip * l1 == Prod(l1, ip);
      forall p: nat | p < ip
        ensures StrideSums(f, ip, l1)(p) == Mul(Pow(w, Times3(l1, q, j)), g(p))
      {
        BackwardTerm(x, spec, w, ido, ip, l1, k, j, q, p);
      }
      hide Mul, Pow, Sum, FoldTerm, DftTerm, Bins, Prod, Times3;
      SumScale(ip, Pow(w, Times3(l1, q, j)), g, StrideSums(f, ip, l1));
    }
  }

  /** The whole spectrum a buffer holds. */
  function Unpacked(x: seq<real>): (s: seq<Complex>)
    ensures |s| == |x|
  {
    seq(|x|, (m: nat) => BlockBin(x, |x|, 0, m))
  }

  lemma BackwardStart(x: seq<real>, w: Complex)
    ensures BackStage(x, Unpacked(x), w, 1, |x|)
  {
    forall b: nat, m: nat | b < 1 && m < |x|
      ensures BlockBin(x, |x|, b, m) == Sum(1, FoldTerm(Unpacked(x), w, |x|, b, m))
    {
      OneTerm(FoldTerm(Unpacked(x), w, |x|, 0, m));
      assert Idx(m, |x|, 0) == m && Prod(0, m) == 0;
      MulOne(Unpacked(x)[m]);
      hide Mul, Sum, BlockBin;
    }
  }

  /** After the last pass every block is a value: the transform of the spectrum, which is real. */
  lemma BackwardEnd(x: seq<real>, spec: seq<Complex>, w: Complex)
    requires BackStage(x, spec, w, |spec|, 1)
    ensures AsComplex(x) == Transform(spec, w)
  {
    forall b: nat | b < |x|
      ensures AsComplex(x)[b] == DftAt(spec, w, b)
    {
      SingleBin(x, b);
      var f, g := FoldTerm(spec, w, 1, b, 0), DftTerm(spec, w, b);
      forall s: nat | s < |x|
        ensures f(s) == g(s)
      {
        assert Idx(0, 1, s) == s && Prod(b, s) == s * b;
        hide Mul, Pow;
      }
      SumCong(|x|, f, g);
    }
  }
}
