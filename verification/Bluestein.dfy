/** Bluestein's algorithm: a transform of any length as a convolution of a smooth length. */
module Bluestein {
  import opened Wrappers
  import opened Complexes
  import opened Sums
  import opened Dft
  import opened Convolution
  import opened Division
  import opened Plans
  import opened PassAll
  import opened SinCos
  import opened Factorize
  import GoodSize

  datatype BluePlan = BluePlan(n: nat, n2: nat, plan: Plan, bk: seq<Complex>, bkf: seq<Complex>)

  /** The chirp `z^(m*m)`, with `z` half the step of the transform. */
  function Chirp(z: Complex, n: nat): seq<Complex> { seq(n, (m: nat) => Pow(z, m * m)) }

  /** The scaled chirp, wrapped around both ends of a circle of `n2` points. */
  function Wrapped(bk: seq<Complex>, n2: nat): seq<Complex> {
    seq(n2, (m: nat) => WrappedAt(bk, n2, m))
  }

  function WrappedAt(bk: seq<Complex>, n2: nat, m: nat): Complex {
    var xn2 := if n2 > 0 then 1.0 / n2 as real else 0.0;
    if m < |bk| then Scale(xn2, bk[m])
    else if m < n2 && n2 - m < |bk| then Scale(xn2, bk[n2 - m])
    else ZERO
  }

  ghost predicate ValidBlue(bp: BluePlan, root: nat -> Complex) {
    && bp.n > 0 && bp.n2 >= 2 * bp.n - 1
    && bp.plan.length == bp.n2 && ValidPlan(bp.plan, root(bp.n2))
    && bp.bk == Chirp(root(2 * bp.n), bp.n)
    && bp.bkf == Transform(Wrapped(bp.bk, bp.n2), Signed(root(bp.n2), -1))
  }

  // ---------- the chirp identity ----------

  function Beta(z: Complex, sign: int, m: nat): Complex { Pow(Signed(z, sign), m * m) }

  function Apart(t: nat, j: nat): nat { if t >= j then t - j else j - t }

  lemma SquaresSplit(t: nat, j: nat)
    ensures j * j + t * t == Apart(t, j) * Apart(t, j) + 2 * (j * t)
  {}

  lemma ChirpIdentity(z: Complex, t: nat, j: nat)
    requires Mul(z, Conj(z)) == ONE
    ensures Mul(Mul(Pow(z, j * j), Conj(Pow(z, Apart(t, j) * Apart(t, j)))), Pow(z, t * t)) == Pow(Pow(z, 2), j * t)
  {
    hide Mul, Pow, Conj, Apart;
    var d := Apart(t, j);
    SquaresSplit(t, j);
    var a, b, c := Pow(z, j * j), Pow(z, t * t), Pow(z, d * d);
    PowAdd(z, j * j, t * t);
    PowAdd(z, d * d, 2 * (j * t));
    PowMul(z, 2, j * t);
    PowCancel(z, d * d);
    PowConj(z, d * d);
    var e := Pow(Pow(z, 2), j * t);
    assert Mul(a, b) == Mul(c, e);
    MulAssoc(a, Conj(c), b);
    MulComm(Conj(c), b);
    MulAssoc(a, b, Conj(c));
    MulComm(Mul(c, e), Conj(c));
    MulAssoc(Conj(c), c, e);
    MulComm(Conj(c), c);
    MulOne(e);
  }

  // ---------- the value Bluestein's path computes ----------

  /** The input times the chirp, padded with zeros. */
  function Chirped(x: seq<Complex>, z: Complex, sign: int, n2: nat): seq<Complex> {
    seq(n2, (j: nat) => if j < |x| then Mul(x[j], Beta(z, sign, j)) else ZERO)
  }

  lemma ConjSigned(a: Complex, sign: int)
    requires sign == 1 || sign == -1
    ensures Signed(a, -sign) == Conj(Signed(a, sign))
  {
    ConjTwice(a);
  }

  lemma SignedScale(r: real, a: Complex, sign: int)
    ensures Signed(Scale(r, a), sign) == Scale(r, Signed(a, sign))
  {}

  /** Seen from output `t`, input `j` meets the chirp at their distance. */
  lemma WrappedMeets(z: Complex, sign: int, n: nat, n2: nat, t: nat, j: nat)
    requires sign == 1 || sign == -1
    requires t < n && j < n && n2 >= 2 * n - 1
    ensures At(SignedSeq(Wrapped(Chirp(z, n), n2), -sign), Around(t, j, n2))
         == Scale(1.0 / n2 as real, Conj(Beta(z, sign, Apart(t, j))))
  {
    hide Pow, Scale, Conj, Signed;
    var d, m := Apart(t, j), Around(t, j, n2);
    var bk := Chirp(z, n);
    assert m < n2 && WrappedAt(bk, n2, m) == Scale(1.0 / n2 as real, bk[d]);
    assert bk[d] == Pow(z, d * d);
    SignedScale(1.0 / n2 as real, bk[d], -sign);
    SignedPow(z, sign, d * d);
    ConjSigned(bk[d], sign);
  }

  lemma MulScaleRight(r: real, a: Complex, b: Complex)
    ensures Mul(a, Scale(r, b)) == Scale(r, Mul(a, b))
  {
    MulComm(a, Scale(r, b));
    MulScale(r, b, a);
    MulComm(b, a);
    hide *;
  }

  lemma ScaleTwice(r: real, s: real, a: Complex)
    ensures Scale(r, Scale(s, a)) == Scale(r * s, a)
  {}

  /** One term of the convolution, dechirped, is the term of the transform. */
  lemma BlueTerm(x: seq<Complex>, z: Complex, sign: int, n2: nat, t: nat, j: nat)
    requires sign == 1 || sign == -1
    requires Mul(z, Conj(z)) == ONE && t < |x| && j < |x| && n2 >= 2 * |x| - 1
    ensures Mul(Beta(z, sign, t), CircTerm(Chirped(x, z, sign, n2), SignedSeq(Wrapped(Chirp(z, |x|), n2), -sign), t)(j))
         == Scale(1.0 / n2 as real, DftTerm(x, Pow(Signed(z, sign), 2), t)(j))
  {
    var zs, r := Signed(z, sign), 1.0 / n2 as real;
    assert Mul(zs, Conj(zs)) == ONE by { ConjTwice(z); MulComm(z, Conj(z)); }
    hide Mul, Pow, Scale, Conj, Signed, Wrapped, SignedSeq, Chirp;
    WrappedMeets(z, sign, |x|, n2, t, j);
    ChirpIdentity(zs, t, j);
    var bt, bj, cd := Beta(z, sign, t), Beta(z, sign, j), Conj(Beta(z, sign, Apart(t, j)));
    assert At(Chirped(x, z, sign, n2), j) == Mul(x[j], bj);
    MulScaleRight(r, Mul(x[j], bj), cd);
    MulScaleRight(r, bt, Mul(Mul(x[j], bj), cd));
    MulAssoc(x[j], bj, cd);
    MulComm(bt, Mul(x[j], Mul(bj, cd)));
    MulAssoc(x[j], Mul(bj, cd), bt);
  }

  lemma InverseScales(n2: nat, d: Complex)
    requires n2 > 0
    ensures Scale(n2 as real, Scale(1.0 / n2 as real, d)) == d
  {
    ScaleTwice(n2 as real, 1.0 / n2 as real, d);
    assert n2 as real * (1.0 / n2 as real) == 1.0;
  }

  /** Dechirping the circular convolution gives the transform. */
  lemma BlueValue(x: seq<Complex>, z: Complex, sign: int, n2: nat, t: nat)
    requires sign == 1 || sign == -1
    requires Mul(z, Conj(z)) == ONE && t < |x| && n2 >= 2 * |x| - 1
    ensures Mul(Beta(z, sign, t),
                Scale(n2 as real, Circular(Chirped(x, z, sign, n2), SignedSeq(Wrapped(Chirp(z, |x|), n2), -sign))[t]))
         == DftAt(x, Pow(Signed(z, sign), 2), t)
  {
    hide Mul, Pow, Scale, Conj, Signed, Wrapped, SignedSeq, Chirp, Beta, Add, Around;
    var n, a, b := |x|, Chirped(x, z, sign, n2), SignedSeq(Wrapped(Chirp(z, |x|), n2), -sign);
    var f, w, bt := CircTerm(a, b, t), Pow(Signed(z, sign), 2), Beta(z, sign, t);
    var r := 1.0 / n2 as real;
    SumConcat(n, n2 - n, f);
    forall j: nat | j < n2 - n
      ensures Shift(f, n)(j) == ZERO
    {
      MulZero(At(b, Around(t, n + j, n2)));
    }
    SumZero(n2 - n, Shift(f, n));
    AddZero(Sum(n, f));
    var h: nat -> Complex := (j: nat) => Mul(bt, f(j));
    SumScale(n, bt, f, h);
    forall j: nat | j < n
      ensures h(j) == Mul(Complex(r, 0.0), DftTerm(x, w, t)(j))
    {
      BlueTerm(x, z, sign, n2, t, j);
      ScaleIsMul(r, DftTerm(x, w, t)(j));
    }
    SumScale(n, Complex(r, 0.0), DftTerm(x, w, t), h);
    ScaleIsMul(r, DftAt(x, w, t));
    MulScaleRight(n2 as real, bt, Sum(n2, f));
    InverseScales(n2, DftAt(x, w, t));
  }

  lemma TransformScaled(r: real, x: seq<Complex>, w: Complex)
    ensures Transform(Scaled(r, x), w) == Scaled(r, Transform(x, w))
  {
    hide Mul, Pow, Scale;
    forall k: nat | k < |x|
      ensures DftAt(Scaled(r, x), w, k) == Scale(r, DftAt(x, w, k))
    {
      forall i: nat | i < |x|
        ensures DftTerm(Scaled(r, x), w, k)(i) == Mul(Complex(r, 0.0), DftTerm(x, w, k)(i))
      {
        MulScale(r, x[i], Pow(w, i * k));
        ScaleIsMul(r, Mul(x[i], Pow(w, i * k)));
      }
      SumScale(|x|, Complex(r, 0.0), DftTerm(x, w, k), DftTerm(Scaled(r, x), w, k));
      ScaleIsMul(r, DftAt(x, w, k));
    }
  }

  lemma PointwiseScaled(r: real, a: seq<Complex>, b: seq<Complex>)
    ensures Pointwise(Scaled(r, a), b) == Scaled(r, Pointwise(a, b))
  {
    hide Mul, Scale;
    forall i: nat | i < |a|
      ensures Mul(At(Scaled(r, a), i), At(b, i)) == Scale(r, Mul(At(a, i), At(b, i)))
    {
      MulScale(r, a[i], At(b, i));
    }
  }

  lemma WrappedSymmetric(bk: seq<Complex>, n2: nat)
    requires n2 >= 2 * |bk| - 1
    ensures Symmetric(Wrapped(bk, n2))
  {
    hide Scale;
  }

  // ---------- the code ----------

  lemma SquareStep(m: nat, n: nat, coeff: nat)
    requires 0 < m < n && coeff == ((m - 1) * (m - 1)) % (2 * n)
    ensures (m * m) % (2 * n) == if coeff + (2 * m - 1) >= 2 * n then coeff + (2 * m - 1) - 2 * n
              else coeff + (2 * m - 1)
  {
    var q := ((m - 1) * (m - 1)) / (2 * n);
    var c := coeff + (2 * m - 1);
    assert (m - 1) * (m - 1) == 2 * n * q + coeff;
    assert m * m == (m - 1) * (m - 1) + (2 * m - 1);
    if c >= 2 * n {
      assert 2 * n * (q + 1) == 2 * n * q + 2 * n;
      ModUnique(m * m, 2 * n, q + 1, c - 2 * n);
    } else {
      ModUnique(m * m, 2 * n, q, c);
    }
  }

  lemma RootPower(w: Complex, n: nat, e: nat)
    requires n > 0 && Pow(w, n) == ONE
    ensures Pow(w, e % n) == Pow(w, e)
  {
    hide Pow;
    var q, r := e / n, e % n;
    assert e == r + n * q;
    PowMod(w, n, r, q);
  }

  /** The loop that steps `coeff` through the squares modulo `2n` and reads the chirp. */
  method MakeChirp(n: nat, tmp: seq<Complex>, ghost z: Complex) returns (bk: seq<Complex>)
    requires n > 0 && Pow(z, 2 * n) == ONE && tmp == TrigTable(z, 2 * n)
    ensures bk == Chirp(z, n)
  {
    hide Pow;
    bk := [ONE];
    assert Pow(z, 0 * 0) == ONE by { ZeroPower(z, 0); }
    var coeff := 0;
    for m := 1 to n
      invariant coeff == ((m - 1) * (m - 1)) % (2 * n)
      invariant |bk| == m && forall i: nat :: i < m ==> bk[i] == Pow(z, i * i)
    {
      SquareStep(m, n, coeff);
      coeff := coeff + (2 * m - 1);
      if coeff >= 2 * n {
        coeff := coeff - 2 * n;
      }
      RootPower(z, 2 * n, m * m);
      bk := bk + [tmp[coeff]];
    }
  }

  /** The loops that wrap the scaled chirp around the padded buffer and clear its middle. */
  method WrapChirp(bk: seq<Complex>, n2: nat, bkf: array<Complex>)
    requires |bk| > 0 && n2 >= 2 * |bk| - 1 && bkf.Length == n2
    modifies bkf
    ensures bkf[..] == Wrapped(bk, n2)
  {
    hide Scale;
    var n, xn2 := |bk|, 1.0 / n2 as real;
    bkf[0] := Scale(xn2, bk[0]);
    for m := 1 to n
      invariant forall i :: 0 <= i < m ==> bkf[i] == Scale(xn2, bk[i])
      invariant forall i :: n2 - m < i < n2 ==> bkf[i] == Scale(xn2, bk[n2 - i])
    {
      bkf[n2 - m] := Scale(xn2, bk[m]);
      bkf[m] := bkf[n2 - m];
    }
    for m := n to n2 - n + 1
      invariant forall i :: 0 <= i < n ==> bkf[i] == Scale(xn2, bk[i])
      invariant forall i :: n2 - n < i < n2 ==> bkf[i] == Scale(xn2, bk[n2 - i])
      invariant forall i :: n <= i < m ==> bkf[i] == ZERO
    {
      bkf[m] := ZERO;
    }
    assert forall i: nat :: i < n2 ==> bkf[i] == WrappedAt(bk, n2, i);
  }

  /** make_fftblue_plan. */
  method MakeBlue(length: nat, turn: real -> Complex) returns (bp: Option<BluePlan>)
    requires length > 0 && Circle(turn)
    ensures bp.Some? ==> bp.value.n == length && ValidBlue(bp.value, Root(turn))
    ensures length < Pow3(NFCT - 1) / 2 ==> bp.Some?
  {
    hide *;
    ghost var root := Root(turn);
    CircleFamily(turn);
    var n := length;
    var n2 := GoodSize.Compute(2 * n - 1);
    GoodSizeBound(n, n2);
    ghost var z := root(2 * n);
    RootIs(root, 2 * n);
    FullCircle(z, 2 * n);
    var tmp := TrigEntries(turn, 2 * n);
    var bk := MakeChirp(n, tmp, z);
    ChirpSize(z, n);
    var bkf := new Complex[n2];
    WrapChirp(bk, n2, bkf);
    ghost var wrapped := bkf[..];
    var plan := MakePlan(n2, turn);
    if plan.None? {
      return None;
    }
    PassAll.PassAll(plan.value, bkf, 1.0, -1, Root(turn));
    bp := Some(BluePlan(n, n2, plan.value, bk, bkf[..]));
    BlueIsValid(bp.value, root, wrapped);
  }

  lemma CircleFamily(turn: real -> Complex)
    requires Circle(turn)
    ensures RootFamily(Root(turn))
  {
    hide *;
    CircleIsRootFamily(turn);
  }

  lemma BlueIsValid(bp: BluePlan, root: nat -> Complex, wrapped: seq<Complex>)
    requires bp.n > 0 && bp.n2 >= 2 * bp.n - 1 && bp.plan.length == bp.n2 && ValidPlan(bp.plan, root(bp.n2))
    requires bp.bk == Chirp(root(2 * bp.n), bp.n) && |bp.bk| == bp.n && wrapped == Wrapped(bp.bk, bp.n2)
    requires bp.bkf == Transform(wrapped, Signed(root(bp.n2), -1))
    ensures ValidBlue(bp, root)
  {
    hide ValidPlan, Chirp, Wrapped, Transform, Signed;
  }

  lemma GoodSizeBound(n: nat, n2: nat)
    requires n > 0 && forall m: nat :: m >= 2 * n - 1 && GoodSize.Smooth(m) ==> n2 <= m
    ensures n2 < 4 * n
  {
    hide GoodSize.Generated, GoodSize.Smooth;
    var p := GoodSize.PowerOfTwoBetween(2 * n - 1);
    GoodSize.GeneratedIsSmooth(p);
  }

  lemma FullCircle(z: Complex, n: nat)
    requires UnitRoot(z, n)
    ensures Pow(z, n) == ONE && Mul(z, Conj(z)) == ONE
  {}

  lemma ChirpSize(z: Complex, n: nat)
    ensures |Chirp(z, n)| == n
  {}

  lemma HalfStep(root: nat -> Complex, n: nat, sign: int)
    requires RootFamily(root) && n > 0
    ensures Signed(root(n), sign) == Pow(Signed(root(2 * n), sign), 2)
  {
    assert Refines(root, n, 2);
    assert n * 2 == 2 * n;
    SignedPow(root(2 * n), sign, 2);
    hide Pow;
  }

  lemma BlueParts(bp: BluePlan, root: nat -> Complex)
    requires ValidBlue(bp, root)
    ensures bp.n > 0 && bp.n2 >= 2 * bp.n - 1 && bp.plan.length == bp.n2 && ValidPlan(bp.plan, root(bp.n2))
    ensures |bp.bk| == bp.n && |bp.bkf| == bp.n2
    ensures forall m: nat :: m < bp.n ==> bp.bk[m] == Pow(root(2 * bp.n), m * m)
    ensures bp.bkf == Transform(Wrapped(bp.bk, bp.n2), Signed(root(bp.n2), -1)) && bp.bk == Chirp(root(2 * bp.n), bp.n)
  {
    hide Pow;
  }

  /** What the stages of fftblue_fft add up to. */
  lemma BlueResult(bp: BluePlan, x: seq<Complex>, fa: seq<Complex>, y: seq<Complex>, out: seq<Complex>,
                   isign: int, fct: real, root: nat -> Complex)
    requires RootFamily(root) && ValidBlue(bp, root) && (isign == 1 || isign == -1)
    requires |x| == |out| == bp.n && |fa| == |y| == bp.n2
    requires fa == Scaled(fct, Transform(Chirped(x, root(2 * bp.n), isign, bp.n2), Signed(root(bp.n2), -1)))
    requires y == Transform(Pointwise(fa, SignedSeq(bp.bkf, -isign)), Signed(root(bp.n2), 1))
    requires forall m: nat :: m < bp.n ==> out[m] == Mul(Beta(root(2 * bp.n), isign, m), y[m])
    ensures out == Scaled(fct, Transform(x, Signed(root(bp.n), isign)))
  {
    var n, n2, z := bp.n, bp.n2, root(2 * bp.n);
    var v := Signed(root(n2), -1);
    var a, wr := Chirped(x, z, isign, n2), Wrapped(bp.bk, n2);
    var b := SignedSeq(wr, -isign);
    ConjTwice(root(n2));
    RootIs(root, n2);
    RootIs(root, 2 * n);
    SignedRoot(root(n2), n2, -1);
    HalfStep(root, n, isign);
    hide Mul, Pow, Scale, Conj, RootFamily, UnitRoot, PrincipalRoot, ValidPlan, Circular, Beta, Chirped, DftAt;
    FullCircle(z, 2 * n);
    WrappedSymmetric(bp.bk, n2);
    SymmetricTransform(wr, v, -isign);
    PointwiseScaled(fct, Transform(a, v), Transform(b, v));
    ConvolutionTheorem(a, b, v);
    TransformScaled(fct, Pointwise(Transform(a, v), Transform(b, v)), Conj(v));
    assert y == Scaled(fct, Scaled(n2 as real, Circular(a, b)));
    forall m: nat | m < n
      ensures out[m] == Scale(fct, DftAt(x, Signed(root(n), isign), m))
    {
      CircularSize(a, b);
      MulScaleRight(fct, Beta(z, isign, m), Scale(n2 as real, Circular(a, b)[m]));
      BlueValue(x, z, isign, n2, m);
    }
  }

  lemma CircularSize(a: seq<Complex>, b: seq<Complex>)
    ensures |Circular(a, b)| == |a|
  {}

  /** fftblue_fft, for `isign` 1 and -1 and at least two points. */
  method BlueFft(bp: BluePlan, c: array<Complex>, isign: int, fct: real, root: nat -> Complex)
    requires RootFamily(root) && ValidBlue(bp, root) && c.Length == bp.n
    requires isign == 1 || isign == -1
    requires bp.n > 1 || fct == 1.0
    modifies c
    ensures c[..] == Scaled(fct, Transform(old(c[..]), Signed(root(bp.n), isign)))
  {
    hide *;
    BlueParts(bp, root);
    var n, n2 := bp.n, bp.n2;
    ghost var x, z := c[..], root(2 * n);
    var akf := new Complex[n2];
    ChirpIn(bp.bk, c, akf, isign, z);
    ScaledByOne(Transform(akf[..], Signed(root(n2), -1)));
    PassAll.PassAll(bp.plan, akf, fct, -1, root);
    ghost var fa := akf[..];
    Convolve(bp.bkf, akf, isign);
    PassAll.PassAll(bp.plan, akf, 1.0, 1, root);
    ChirpOut(bp.bk, c, akf, isign, z);
    BlueResult(bp, x, fa, akf[..], c[..], isign, fct, root);
  }

  method ChirpIn(bk: seq<Complex>, c: array<Complex>, akf: array<Complex>, isign: int, ghost z: Complex)
    requires c != akf && |bk| == c.Length <= akf.Length
    requires forall m: nat :: m < |bk| ==> bk[m] == Pow(z, m * m)
    modifies akf
    ensures akf[..] == Chirped(c[..], z, isign, akf.Length)
  {
    hide Mul, Pow, Signed;
    for m := 0 to c.Length
      invariant forall i: nat :: i < m ==> akf[i] == Mul(c[i], Beta(z, isign, i))
    {
      SignedPow(z, isign, m * m);
      akf[m] := Mul(c[m], Signed(bk[m], isign));
    }
    for m := c.Length to akf.Length
      invariant forall i: nat :: i < c.Length ==> akf[i] == Mul(c[i], Beta(z, isign, i))
      invariant forall i :: c.Length <= i < m ==> akf[i] == ZERO
    {
      akf[m] := ZERO;
    }
  }

  method Convolve(bkf: seq<Complex>, akf: array<Complex>, isign: int)
    requires |bkf| == akf.Length && (isign == 1 || isign == -1)
    modifies akf
    ensures akf[..] == Pointwise(old(akf[..]), SignedSeq(bkf, -isign))
  {
    hide Mul, Signed;
    for m := 0 to akf.Length
      invariant forall i :: 0 <= i < m ==> akf[i] == Mul(old(akf[i]), Signed(bkf[i], -isign))
      invariant forall i :: m <= i < akf.Length ==> akf[i] == old(akf[i])
    {
      akf[m] := Mul(akf[m], Signed(bkf[m], -isign));
    }
  }

  method ChirpOut(bk: seq<Complex>, c: array<Complex>, akf: array<Complex>, isign: int, ghost z: Complex)
    requires c != akf && |bk| == c.Length <= akf.Length
    requires forall m: nat :: m < |bk| ==> bk[m] == Pow(z, m * m)
    modifies c
    ensures forall m: nat :: m < c.Length ==> c[m] == Mul(Beta(z, isign, m), akf[m])
  {
    hide Mul, Pow, Signed;
    for m := 0 to c.Length
      invariant forall i: nat :: i < m ==> c[i] == Mul(Beta(z, isign, i), akf[i])
    {
      SignedPow(z, isign, m * m);
      c[m] := Mul(Signed(bk[m], isign), akf[m]);
    }
  }
}
