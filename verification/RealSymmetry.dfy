/** The spectra of the real passes are symmetric, so that half of them is enough. */
module RealSymmetry {
  import opened Basics
  import opened Complexes
  import opened Sums
  import opened Dft
  import opened RadixPass
  import opened Butterflies
  import opened Passes
  import opened RealSpectra
  import opened RealStages

  /** One power of the root for the turn of input `j` at frequency `m`. */
  lemma OnePower(v: Complex, l1: nat, ido: nat, q: nat, p: nat, j: nat, z: Complex)
    ensures Mul(Mul(Pow(v, Times3(l1, q, j)), z), Pow(Pow(v, Prod(l1, ido)), j * p))
         == Mul(z, Pow(v, Prod(Prod(l1, j), Idx(q, ido, p))))
  {
    assert Prod(Prod(l1, j), Idx(q, ido, p)) == Times3(l1, q, j) + Prod(Prod(l1, ido), Prod(j, p)) by {
      assert (l1 * j) * (q + ido * p) == (l1 * j) * q + (l1 * j) * (ido * p);
      assert (l1 * j) * q == (l1 * q) * j;
      assert (l1 * j) * (ido * p) == (l1 * ido) * (j * p);
    }
    assert j * p == Prod(j, p);
    hide Mul, Pow, Prod, Times3, Idx;
    PowAdd(v, Times3(l1, q, j), Prod(Prod(l1, ido), Prod(j, p)));
    PowMul(v, Prod(l1, ido), Prod(j, p));
    assert Prod(l1, ido) * Prod(j, p) == Prod(Prod(l1, ido), Prod(j, p)) by { ProductIs(Prod(l1, ido), Prod(j, p)); }
    var a, t := Pow(v, Times3(l1, q, j)), Pow(Pow(v, Prod(l1, ido)), Prod(j, p));
    MulComm(a, z);
    MulAssoc(z, a, t);
  }

  lemma ProductIs(a: nat, b: nat)
    ensures a * b == Prod(a, b)
  {}

  /** Two frequencies that add up to the whole are opposite. */
  lemma OppositePower(v: Complex, l1: nat, ip: nat, ido: nat, j: nat, m: nat, n: nat)
    requires Mul(v, Conj(v)) == ONE && Pow(v, Times3(l1, ip, ido)) == ONE && m + n == Prod(ido, ip)
    ensures Pow(v, Prod(Prod(l1, j), n)) == Conj(Pow(v, Prod(Prod(l1, j), m)))
  {
    assert Prod(Prod(l1, j), m) + Prod(Prod(l1, j), n) == Times3(l1, ip, ido) * j by {
      assert (l1 * j) * m + (l1 * j) * n == (l1 * j) * (m + n);
      assert (l1 * j) * (ido * ip) == (l1 * ip * ido) * j;
    }
    hide Mul, Pow, Conj, Prod, Times3;
    MirrorPower(v, Times3(l1, ip, ido), Prod(Prod(l1, j), m), Prod(Prod(l1, j), n), j);
  }

  // ---------- forward ----------

  function ForwardPlain(x: seq<real>, v: Complex, ido: nat, l1: nat, k: nat, q: nat, p: nat): nat -> Complex {
    (j: nat) => Mul(BlockBin(x, ido, Idx(k, l1, j), q), Pow(v, Prod(Prod(l1, j), Idx(q, ido, p))))
  }

  lemma ForwardIsPlain(x: seq<real>, v: Complex, ido: nat, ip: nat, l1: nat, k: nat, q: nat, p: nat)
    ensures ForwardBin(x, v, ido, ip, l1, k, q, p) == Sum(ip, ForwardPlain(x, v, ido, l1, k, q, p))
  {
    hide Mul, Pow, BlockBin, Prod, Times3, Idx, DftTerm, Spread, ForwardPlain;
    var f, g := DftTerm(Spread(x, v, ido, ip, l1, k, q), Pow(v, Prod(l1, ido)), p),
        ForwardPlain(x, v, ido, l1, k, q, p);
    forall j: nat | j < ip
      ensures f(j) == g(j)
    {
      ForwardPlainTerm(x, v, ido, ip, l1, k, q, p, j);
    }
    SumCong(ip, f, g);
  }

  lemma ForwardPlainTerm(x: seq<real>, v: Complex, ido: nat, ip: nat, l1: nat, k: nat, q: nat, p: nat, j: nat)
    requires j < ip
    ensures DftTerm(Spread(x, v, ido, ip, l1, k, q), Pow(v, Prod(l1, ido)), p)(j)
              == ForwardPlain(x, v, ido, l1, k, q, p)(j)
  {
    hide Mul, Pow, BlockBin, Prod, Times3, Idx;
    OnePower(v, l1, ido, q, p, j, BlockBin(x, ido, Idx(k, l1, j), q));
  }

  /** The remainders of two opposite frequencies are opposite, or both zero. */
  ghost predicate Facing(ido: nat, ip: nat, q: nat, p: nat, q': nat, p': nat) {
    && q < ido && q' < ido && (q + q' == ido || (q == 0 && q' == 0))
    && Idx(q, ido, p) + Idx(q', ido, p') == Prod(ido, ip)
  }

  lemma FacingBins(x: seq<real>, ido: nat, b: nat, q: nat, q': nat)
    requires q < ido && q' < ido && (q + q' == ido || (q == 0 && q' == 0))
    ensures BlockBin(x, ido, b, q') == Conj(BlockBin(x, ido, b, q))
  {
    if q == 0 { BinReal(x, Prod(ido, b), ido); } else { BinMirror(x, Prod(ido, b), ido, q); }
  }

  lemma ForwardMirror(x: seq<real>, v: Complex, ido: nat, ip: nat, l1: nat, k: nat, q: nat, p: nat, q': nat, p': nat)
    requires Mul(v, Conj(v)) == ONE && Pow(v, Times3(l1, ip, ido)) == ONE && Facing(ido, ip, q, p, q', p')
    ensures ForwardBin(x, v, ido, ip, l1, k, q', p') == Conj(ForwardBin(x, v, ido, ip, l1, k, q, p))
  {
    hide Mul, Pow, Conj, BlockBin, Prod, Times3, Idx, ForwardBin;
    ForwardIsPlain(x, v, ido, ip, l1, k, q, p);
    ForwardIsPlain(x, v, ido, ip, l1, k, q', p');
    var f, h := ForwardPlain(x, v, ido, l1, k, q, p), ForwardPlain(x, v, ido, l1, k, q', p');
    forall j: nat | j < ip
      ensures h(j) == Conj(f(j))
    {
      var b, t := BlockBin(x, ido, Idx(k, l1, j), q), Pow(v, Prod(Prod(l1, j), Idx(q, ido, p)));
      FacingBins(x, ido, Idx(k, l1, j), q, q');
      OppositePower(v, l1, ip, ido, j, Idx(q, ido, p), Idx(q', ido, p'));
      ConjMul(b, t);
    }
    SumConj(ip, f, h);
  }

  lemma ForwardZero(x: seq<real>, v: Complex, ido: nat, ip: nat, l1: nat, k: nat)
    ensures Conj(ForwardBin(x, v, ido, ip, l1, k, 0, 0)) == ForwardBin(x, v, ido, ip, l1, k, 0, 0)
  {
    hide Mul, Conj, BlockBin, ForwardBin;
    ForwardIsPlain(x, v, ido, ip, l1, k, 0, 0);
    var f := ForwardPlain(x, v, ido, l1, k, 0, 0);
    forall j: nat | j < ip
      ensures f(j) == Conj(f(j))
    {
      assert Idx(0, ido, 0) == 0 && Prod(Prod(l1, j), 0) == 0 && Pow(v, 0) == ONE;
      MulOne(BlockBin(x, ido, Idx(k, l1, j), 0));
      ZeroBinReal(x, ido, Idx(k, l1, j));
    }
    SumConj(ip, f, f);
  }

  lemma ZeroBinReal(x: seq<real>, len: nat, b: nat)
    ensures Conj(BlockBin(x, len, b, 0)) == BlockBin(x, len, b, 0)
  {}

  // ---------- which frequencies a forward pass stores ----------

  predicate Canon(ido: nat, ip: nat, q: nat, p: nat) {
    p < ip && (if q == 0 then 2 * p <= ip else 2 * q < ido || (2 * q == ido && 2 * p < ip))
  }

  lemma IdxSum(a: nat, d: nat, b: nat, a': nat, b': nat)
    ensures Idx(a, d, b) + Idx(a', d, b') == Idx(a + a', d, b + b')
    ensures Idx(d, d, b) == Idx(0, d, b + 1) && Idx(0, d, b) == Prod(d, b) && Idx(0, d, 0) == 0
  {}

  /** No two of them share their slots. */
  lemma CanonApart(ido: nat, ip: nat, q: nat, p: nat, q': nat, p': nat)
    requires ido > 0 && Canon(ido, ip, q, p) && Canon(ido, ip, q', p') && (q != q' || p != p')
    ensures Idx(q, ido, p) != Idx(q', ido, p') && Idx(q, ido, p) + Idx(q', ido, p') != Prod(ido, ip)
  {
    IdxSum(q, ido, p, q', p');
    IdxSum(0, ido, ip, 0, 0);
    IdxSum(q, ido, p + p', 0, 0);
    hide Idx, Prod;
    if Idx(q, ido, p) == Idx(q', ido, p') {
      IdxInjective(q, ido, p, q', p');
    }
    if Idx(q + q', ido, p + p') == Prod(ido, ip) {
      if q + q' < ido {
        IdxInjective(q + q', ido, p + p', 0, ip);
      } else {
        IdxInjective(0, ido, p + p' + 1, 0, ip);
      }
    }
  }

  /** The frequency that faces one that is not stored. */
  lemma CanonFacing(ido: nat, ip: nat, q: nat, p: nat) returns (q': nat, p': nat)
    requires q < ido && p < ip && !Canon(ido, ip, q, p)
    ensures Canon(ido, ip, q', p') && Facing(ido, ip, q, p, q', p') && q' < ido
  {
    q', p' := if q == 0 then 0 else ido - q, if q == 0 then ip - p else ip - 1 - p;
    IdxSum(q, ido, p, q', p');
    IdxSum(0, ido, ip, 0, 0);
    IdxSum(0, ido, ip - 1, 0, 0);
    hide Idx, Prod;
  }

  /** Frequency `(q, p)` of block `k` is stored rightly. */
  ghost predicate ForwardRight(y: seq<real>, x: seq<real>, v: Complex, ido: nat, ip: nat, l1: nat, k: nat, q: nat,
                               p: nat)
  {
    BlockBin(y, Prod(ido, ip), k, Idx(q, ido, p))
        == Kept(Prod(ido, ip), Idx(q, ido, p), ForwardBin(x, v, ido, ip, l1, k, q, p))
  }

  /** Where only a real part is kept, there is nothing else. */
  lemma ForwardKept(x: seq<real>, v: Complex, ido: nat, ip: nat, l1: nat, k: nat, q: nat, p: nat)
    requires Mul(v, Conj(v)) == ONE && Pow(v, Times3(l1, ip, ido)) == ONE && q < ido && p < ip
    ensures Kept(Prod(ido, ip), Idx(q, ido, p), ForwardBin(x, v, ido, ip, l1, k, q, p))
              == ForwardBin(x, v, ido, ip, l1, k, q, p)
  {
    var m, z := Idx(q, ido, p), ForwardBin(x, v, ido, ip, l1, k, q, p);
    if m == 0 {
      IdxSum(0, ido, 0, 0, 0);
      IdxInjective(q, ido, p, 0, 0);
      ForwardZero(x, v, ido, ip, l1, k);
    } else if 2 * m == Prod(ido, ip) {
      IdxSum(q, ido, p, q, p);
      IdxSum(0, ido, ip, 0, 0);
      IdxSum(q, ido, 2 * p, 0, 0);
      hide Idx, Prod, ForwardBin, Mul, Pow, Conj;
      if q != 0 {
        if 2 * q < ido {
          IdxInjective(2 * q, ido, 2 * p, 0, ip);
        } else if 2 * q > ido {
          TwiceOver(q, ido, p);
          IdxInjective(2 * q - ido, ido, 2 * p + 1, 0, ip);
        }
      }
      ForwardMirror(x, v, ido, ip, l1, k, q, p, q, p);
    }
    hide Idx, Prod, ForwardBin;
    KeptReal(Prod(ido, ip), m, z);
  }

  lemma TwiceOver(q: nat, ido: nat, p: nat)
    requires 2 * q >= ido
    ensures Idx(2 * q, ido, 2 * p) == Idx(2 * q - ido, ido, 2 * p + 1)
  {}

  /** With all of these right, all frequencies are. */
  lemma ForwardFromCanon(y: seq<real>, x: seq<real>, v: Complex, ido: nat, ip: nat, l1: nat)
    requires Mul(v, Conj(v)) == ONE && Pow(v, Times3(l1, ip, ido)) == ONE && |x| == |y| == Times3(l1, ip, ido)
    requires forall k: nat, q: nat, p: nat :: k < l1 && q < ido && Canon(ido, ip, q, p) ==>
               ForwardRight(y, x, v, ido, ip, l1, k, q, p)
    ensures IsRealForward(x, y, v, ido, ip, l1)
  {
    forall k: nat, q: nat, p: nat | k < l1 && q < ido && p < ip
      ensures BlockBin(y, Prod(ido, ip), k, Idx(q, ido, p)) == ForwardBin(x, v, ido, ip, l1, k, q, p)
    {
      ForwardAny(y, x, v, ido, ip, l1, k, q, p);
    }
    hide BlockBin, ForwardBin;
  }

  lemma ForwardAny(y: seq<real>, x: seq<real>, v: Complex, ido: nat, ip: nat, l1: nat, k: nat, q: nat, p: nat)
    requires Mul(v, Conj(v)) == ONE && Pow(v, Times3(l1, ip, ido)) == ONE && k < l1 && q < ido && p < ip
    requires forall q: nat, p: nat :: q < ido && Canon(ido, ip, q, p) ==> ForwardRight(y, x, v, ido, ip, l1, k, q, p)
    ensures BlockBin(y, Prod(ido, ip), k, Idx(q, ido, p)) == ForwardBin(x, v, ido, ip, l1, k, q, p)
  {
    hide Idx, Prod, ForwardBin, Mul, Pow, Conj, BlockBin, Times3, Kept, Canon;
    if Canon(ido, ip, q, p) {
      ForwardKept(x, v, ido, ip, l1, k, q, p);
      assert ForwardRight(y, x, v, ido, ip, l1, k, q, p);
    } else {
      var q', p' := CanonFacing(ido, ip, q, p);
      assert ForwardRight(y, x, v, ido, ip, l1, k, q', p');
      InRange(ido, ip, q', p');
      ForwardKept(x, v, ido, ip, l1, k, q', p');
      ForwardMirror(x, v, ido, ip, l1, k, q, p, q', p');
      BlockMirror(y, Prod(ido, ip), k, Idx(q, ido, p), Idx(q', ido, p'));
      InRange2(ido, ip, q, p, q', p');
      ConjTwice(ForwardBin(x, v, ido, ip, l1, k, q, p));
    }
  }

  lemma InRange(ido: nat, ip: nat, q: nat, p: nat)
    requires Canon(ido, ip, q, p)
    ensures p < ip
  {}

  lemma InRange2(ido: nat, ip: nat, q: nat, p: nat, q': nat, p': nat)
    requires Facing(ido, ip, q, p, q', p') && p < ip && p' < ip
    ensures 0 < Idx(q, ido, p) < Prod(ido, ip)
  {
    IdxBound(q, ido, p, ip);
    IdxBound(q', ido, p', ip);
    hide Idx, Prod;
  }

  lemma BlockMirror(x: seq<real>, len: nat, b: nat, m: nat, n: nat)
    requires m + n == len
    ensures 0 < m < len ==> BlockBin(x, len, b, m) == Conj(BlockBin(x, len, b, n))
  {
    if 0 < m < len { BinMirror(x, Prod(len, b), len, n); }
  }

  // ---------- backward ----------

  function BackwardPlain(x: seq<real>, w: Complex, ido: nat, ip: nat, l1: nat, k: nat, j: nat, q: nat): nat -> Complex {
    (p: nat) => Mul(BlockBin(x, Prod(ido, ip), k, Idx(q, ido, p)), Pow(w, Prod(Prod(l1, j), Idx(q, ido, p))))
  }

  lemma BackwardPlainTerm(x: seq<real>, w: Complex, ido: nat, ip: nat, l1: nat, k: nat, j: nat, q: nat, p: nat)
    requires p < ip
    ensures Mul(Pow(w, Times3(l1, q, j)), DftTerm(Bins(x, ido, ip, k, q), Pow(w, Prod(l1, ido)), j)(p))
         == BackwardPlain(x, w, ido, ip, l1, k, j, q)(p)
  {
    hide Mul, Pow, BlockBin, Prod, Times3, Idx;
    var b, a, t := BlockBin(x, Prod(ido, ip), k, Idx(q, ido, p)), Pow(w, Times3(l1, q, j)),
        Pow(Pow(w, Prod(l1, ido)), p * j);
    assert DftTerm(Bins(x, ido, ip, k, q), Pow(w, Prod(l1, ido)), j)(p) == Mul(b, t);
    OnePower(w, l1, ido, q, p, j, b);
    assert p * j == j * p;
    MulAssoc(a, b, t);
  }

  lemma BackwardIsPlain(x: seq<real>, w: Complex, ido: nat, ip: nat, l1: nat, k: nat, j: nat, q: nat)
    ensures BackwardBin(x, w, ido, ip, l1, k, j, q) == Sum(ip, BackwardPlain(x, w, ido, ip, l1, k, j, q))
  {
    hide Mul, Pow, BlockBin, Prod, Times3, Idx, DftTerm, Bins, BackwardPlain;
    var f, g := DftTerm(Bins(x, ido, ip, k, q), Pow(w, Prod(l1, ido)), j), BackwardPlain(x, w, ido, ip, l1, k, j, q);
    forall p: nat | p < ip
      ensures g(p) == Mul(Pow(w, Times3(l1, q, j)), f(p))
    {
      BackwardPlainTerm(x, w, ido, ip, l1, k, j, q, p);
    }
    SumScale(ip, Pow(w, Times3(l1, q, j)), f, g);
  }

  lemma PlainFacing(x: seq<real>, w: Complex, ido: nat, ip: nat, l1: nat, k: nat, j: nat, q: nat, p: nat, q': nat,
                    p': nat)
    requires Mul(w, Conj(w)) == ONE && Pow(w, Times3(l1, ip, ido)) == ONE
    requires Facing(ido, ip, q, p, q', p') && p < ip && p' < ip
    ensures BackwardPlain(x, w, ido, ip, l1, k, j, q')(p') == Conj(BackwardPlain(x, w, ido, ip, l1, k, j, q)(p))
  {
    hide Mul, Pow, Conj, BlockBin, Prod, Times3, Idx;
    var b, t := BlockBin(x, Prod(ido, ip), k, Idx(q, ido, p)), Pow(w, Prod(Prod(l1, j), Idx(q, ido, p)));
    InRange2(ido, ip, q, p, q', p');
    BlockMirror(x, Prod(ido, ip), k, Idx(q, ido, p), Idx(q', ido, p'));
    ConjTwice(BlockBin(x, Prod(ido, ip), k, Idx(q', ido, p')));
    OppositePower(w, l1, ip, ido, j, Idx(q, ido, p), Idx(q', ido, p'));
    ConjMul(b, t);
  }

  /** Opposite frequencies of a part are conjugate. */
  lemma BackwardMirror(x: seq<real>, w: Complex, ido: nat, ip: nat, l1: nat, k: nat, j: nat, q: nat, q': nat)
    requires Mul(w, Conj(w)) == ONE && Pow(w, Times3(l1, ip, ido)) == ONE && 0 < q < ido && q + q' == ido && ip > 0
    ensures BackwardBin(x, w, ido, ip, l1, k, j, q') == Conj(BackwardBin(x, w, ido, ip, l1, k, j, q))
  {
    var f, h := BackwardPlain(x, w, ido, ip, l1, k, j, q), BackwardPlain(x, w, ido, ip, l1, k, j, q');
    hide Mul, Pow, Conj, BlockBin, Prod, Times3, Idx, BackwardBin, BackwardPlain;
    BackwardIsPlain(x, w, ido, ip, l1, k, j, q);
    BackwardIsPlain(x, w, ido, ip, l1, k, j, q');
    SumBackwards(ip, h);
    forall p: nat | p < ip
      ensures Backwards(h, ip - 1)(p) == Conj(f(p))
    {
      FacingPair(ido, ip, q, p);
      PlainFacing(x, w, ido, ip, l1, k, j, q, p, q', ip - 1 - p);
    }
    SumConj(ip, f, Backwards(h, ip - 1));
  }

  lemma FacingPair(ido: nat, ip: nat, q: nat, p: nat)
    requires q < ido && p < ip
    ensures q > 0 ==> Facing(ido, ip, q, p, ido - q, ip - 1 - p)
    ensures q == 0 && p > 0 ==> Facing(ido, ip, 0, p, 0, ip - p)
  {
    if q > 0 { IdxSum(q, ido, p, ido - q, ip - 1 - p); } else { IdxSum(0, ido, p, 0, ip - p); }
    IdxSum(0, ido, ip - 1, 0, 0);
    IdxSum(0, ido, ip, 0, 0);
    hide Idx, Prod;
  }

  /** The zero frequency of a part is real. */
  lemma BackwardZero(x: seq<real>, w: Complex, ido: nat, ip: nat, l1: nat, k: nat, j: nat)
    requires Mul(w, Conj(w)) == ONE && Pow(w, Times3(l1, ip, ido)) == ONE && ip > 0 && ido > 0
    ensures Conj(BackwardBin(x, w, ido, ip, l1, k, j, 0)) == BackwardBin(x, w, ido, ip, l1, k, j, 0)
  {
    hide *;
    var f := BackwardPlain(x, w, ido, ip, l1, k, j, 0);
    ZeroTerm(x, w, ido, ip, l1, k, j);
    BackwardIsPlain(x, w, ido, ip, l1, k, j, 0);
    forall p: nat | 0 < p < ip
      ensures f(ip - p) == Conj(f(p))
    {
      FacingPair(ido, ip, 0, p);
      PlainFacing(x, w, ido, ip, l1, k, j, 0, p, 0, ip - p);
    }
    MirroredSum(ip, f);
  }

  /** A sum whose terms come in conjugate pairs is real. */
  lemma MirroredSum(n: nat, f: nat -> Complex)
    requires n > 0 && Conj(f(0)) == f(0) && forall p: nat :: 0 < p < n ==> f(n - p) == Conj(f(p))
    ensures Conj(Sum(n, f)) == Sum(n, f)
  {
    hide Conj, Add;
    SumConcat(1, n - 1, f);
    OneTerm(f);
    var g := Shift(f, 1);
    if n > 1 {
      SumBackwards(n - 1, g);
      forall p: nat | p < n - 1
        ensures Backwards(g, n - 2)(p) == Conj(g(p))
      {
        assert Backwards(g, n - 2)(p) == f(n - (p + 1)) && g(p) == f(p + 1);
      }
      SumConj(n - 1, g, Backwards(g, n - 2));
    } else {
      assert Sum(0, g) == ZERO;
      ConjZero();
    }
    ConjAdd(f(0), Sum(n - 1, g));
  }

  lemma ConjZero()
    ensures Conj(ZERO) == ZERO
  {}

  lemma ConjAdd(a: Complex, b: Complex)
    ensures Conj(Add(a, b)) == Add(Conj(a), Conj(b))
  {}

  lemma ZeroTerm(x: seq<real>, w: Complex, ido: nat, ip: nat, l1: nat, k: nat, j: nat)
    ensures Conj(BackwardPlain(x, w, ido, ip, l1, k, j, 0)(0)) == BackwardPlain(x, w, ido, ip, l1, k, j, 0)(0)
  {
    assert Idx(0, ido, 0) == 0 && Prod(Prod(l1, j), 0) == 0 && Pow(w, 0) == ONE;
    MulOne(BlockBin(x, Prod(ido, ip), k, 0));
    ZeroBinReal(x, Prod(ido, ip), k);
    hide Mul, Conj, BlockBin;
  }

  /** Frequency `q` of part `j` of block `k` is stored rightly. */
  ghost predicate BackwardRight(y: seq<real>, x: seq<real>, w: Complex, ido: nat, ip: nat, l1: nat, k: nat, j: nat,
                                q: nat)
  {
    BlockBin(y, ido, Idx(k, l1, j), q) == Kept(ido, q, BackwardBin(x, w, ido, ip, l1, k, j, q))
  }

  lemma BackwardKept(x: seq<real>, w: Complex, ido: nat, ip: nat, l1: nat, k: nat, j: nat, q: nat)
    requires Mul(w, Conj(w)) == ONE && Pow(w, Times3(l1, ip, ido)) == ONE && q < ido && ip > 0
    ensures Kept(ido, q, BackwardBin(x, w, ido, ip, l1, k, j, q)) == BackwardBin(x, w, ido, ip, l1, k, j, q)
  {
    hide BackwardBin, Mul, Pow, Conj, Times3;
    if q == 0 {
      BackwardZero(x, w, ido, ip, l1, k, j);
    } else if 2 * q == ido {
      BackwardMirror(x, w, ido, ip, l1, k, j, q, q);
    }
    KeptReal(ido, q, BackwardBin(x, w, ido, ip, l1, k, j, q));
  }

  /** With the lower frequencies right, all are. */
  lemma BackwardFromLower(y: seq<real>, x: seq<real>, w: Complex, ido: nat, ip: nat, l1: nat)
    requires Mul(w, Conj(w)) == ONE && Pow(w, Times3(l1, ip, ido)) == ONE && |x| == |y| == Times3(l1, ip, ido)
    requires forall k: nat, j: nat, q: nat :: k < l1 && j < ip && q < ido && 2 * q <= ido ==>
               BackwardRight(y, x, w, ido, ip, l1, k, j, q)
    ensures IsRealBackward(x, y, w, ido, ip, l1)
  {
    forall k: nat, j: nat, q: nat | k < l1 && j < ip && q < ido
      ensures BlockBin(y, ido, Idx(k, l1, j), q) == BackwardBin(x, w, ido, ip, l1, k, j, q)
    {
      BackwardAny(y, x, w, ido, ip, l1, k, j, q);
    }
    hide BlockBin, BackwardBin;
  }

  lemma BackwardAny(y: seq<real>, x: seq<real>, w: Complex, ido: nat, ip: nat, l1: nat, k: nat, j: nat, q: nat)
    requires Mul(w, Conj(w)) == ONE && Pow(w, Times3(l1, ip, ido)) == ONE && j < ip && q < ido
    requires forall q: nat :: q < ido && 2 * q <= ido ==> BackwardRight(y, x, w, ido, ip, l1, k, j, q)
    ensures BlockBin(y, ido, Idx(k, l1, j), q) == BackwardBin(x, w, ido, ip, l1, k, j, q)
  {
    hide BackwardBin, Mul, Pow, Conj, Times3, BlockBin, Kept;
    BackwardKept(x, w, ido, ip, l1, k, j, q);
    if 2 * q <= ido {
      assert BackwardRight(y, x, w, ido, ip, l1, k, j, q);
    } else {
      assert BackwardRight(y, x, w, ido, ip, l1, k, j, ido - q);
      BackwardKept(x, w, ido, ip, l1, k, j, ido - q);
      BackwardMirror(x, w, ido, ip, l1, k, j, ido - q, q);
      BlockMirror(y, ido, Idx(k, l1, j), q, ido - q);
    }
  }
}
