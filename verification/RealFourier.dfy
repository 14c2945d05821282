/** The choice between the two kinds of real plan, and the words fft and ifft on top of it. */
module RealFourier {
  import opened Basics
  import opened Wrappers
  import opened Complexes
  import opened Dft
  import opened RadixPass
  import opened Butterflies
  import opened Primes
  import opened Factorize
  import opened Plans
  import opened PassAll
  import opened Bluestein
  import opened Fourier
  import opened SinCos
  import opened RealSpectra
  import opened RealStages
  import opened RealSymmetry
  import opened RealPlans
  import opened RealFft

  // ---------- real signals and symmetric spectra ----------

  lemma WholePass(x: seq<real>, v: Complex, m: nat)
    ensures ForwardBin(x, v, 1, |x|, 1, 0, 0, m) == DftAt(AsComplex(x), v, m)
  {
    var a, b := Spread(x, v, 1, |x|, 1, 0, 0), AsComplex(x);
    forall j | 0 <= j < |x|
      ensures a[j] == b[j]
    {
      SingleBin(x, j);
      assert Idx(0, 1, j) == j && Times3(1, 0, j) == 0 && Pow(v, 0) == ONE;
      MulOne(b[j]);
      hide Mul, AsComplex, BlockBin;
    }
    assert a == b && Prod(1, 1) == 1;
    SmallPowers(v);
  }

  lemma WholeSplit(x: seq<real>, w: Complex, j: nat)
    ensures BackwardBin(x, w, 1, |x|, 1, 0, j, 0) == DftAt(Unpacked(x), w, j)
  {
    var a, b := Bins(x, 1, |x|, 0, 0), Unpacked(x);
    forall p | 0 <= p < |x|
      ensures a[p] == b[p]
    {
      assert Idx(0, 1, p) == p && Prod(1, |x|) == |x|;
      hide BlockBin;
    }
    assert a == b && Prod(1, 1) == 1 && Times3(1, 0, j) == 0 && Pow(w, 0) == ONE;
    SmallPowers(w);
    MulOne(DftAt(b, w, j));
    hide Mul, DftAt;
  }

  /** Opposite frequencies are conjugate and the zero frequency is real. */
  ghost predicate Mirrored(t: seq<Complex>) {
    && (|t| > 0 ==> t[0].im == 0.0)
    && forall m: nat :: 0 < m < |t| ==> t[|t| - m] == Conj(t[m])
  }

  /** The spectrum of a real signal is symmetric. */
  lemma RealSpectrum(x: seq<real>, v: Complex)
    requires Mul(v, Conj(v)) == ONE && Pow(v, |x|) == ONE
    ensures Mirrored(Transform(AsComplex(x), v))
  {
    var n, t := |x|, Transform(AsComplex(x), v);
    assert Times3(1, n, 1) == n;
    hide Mul, Pow, DftAt, ForwardBin;
    if n > 0 {
      WholePass(x, v, 0);
      ForwardZero(x, v, 1, n, 1, 0);
    }
    forall m: nat | 0 < m < n
      ensures t[n - m] == Conj(t[m])
    {
      WholePass(x, v, m);
      WholePass(x, v, n - m);
      FacingPair(1, n, 0, m);
      ForwardMirror(x, v, 1, n, 1, 0, 0, m, 0, n - m);
    }
  }

  /** The transform of a packed spectrum is real. */
  lemma RealSignal(x: seq<real>, w: Complex, j: nat)
    requires Mul(w, Conj(w)) == ONE && Pow(w, |x|) == ONE && |x| > 0
    ensures DftAt(Unpacked(x), w, j).im == 0.0
  {
    assert Times3(1, |x|, 1) == |x|;
    hide Mul, Pow, DftAt, BackwardBin;
    BackwardZero(x, w, 1, |x|, 1, 0, j);
    WholeSplit(x, w, j);
  }

  lemma MirroredScaled(fct: real, t: seq<Complex>)
    requires Mirrored(t)
    ensures Mirrored(Scaled(fct, t))
  {
    forall m: nat | 0 < m < |t|
      ensures Scaled(fct, t)[|t| - m] == Conj(Scaled(fct, t)[m])
    {
      ScaleConj(fct, t[m]);
    }
  }

  lemma ScaleConj(fct: real, z: Complex)
    ensures Scale(fct, Conj(z)) == Conj(Scale(fct, z))
  {}

  /** `y` holds the lower half of `t`: the zero frequency's real part, then pairs of parts. */
  ghost predicate HoldsHalf(y: seq<real>, t: seq<Complex>) {
    && |y| == |t|
    && forall i: nat :: i < |y| ==> y[i] == HalfAt(t, i)
  }

  function HalfAt(t: seq<Complex>, i: nat): real
    requires i < |t|
  {
    if i == 0 then t[0].re else if i % 2 == 1 then t[(i + 1) / 2].re else t[i / 2].im
  }

  lemma HalfIsPacked(y: seq<real>, t: seq<Complex>)
    requires HoldsHalf(y, t) && Mirrored(t)
    ensures Unpacked(y) == t
  {
    forall m: nat | m < |t|
      ensures Unpacked(y)[m] == t[m]
    {
      HalfBin(y, t, m);
    }
  }

  lemma HalfBin(y: seq<real>, t: seq<Complex>, m: nat)
    requires HoldsHalf(y, t) && Mirrored(t) && m < |t|
    ensures BlockBin(y, |y|, 0, m) == t[m]
  {
    var n := |t|;
    assert Prod(n, 0) == 0;
    if m > 0 {
      var l := if 2 * m <= n then m else n - m;
      assert y[2 * l - 1] == HalfAt(t, 2 * l - 1) == t[l].re;
      if 2 * l < n { assert y[2 * l] == HalfAt(t, 2 * l) == t[l].im; }
      assert t[n - l] == Conj(t[l]) && t[n - m] == Conj(t[m]);
    }
    hide Prod, HalfAt;
  }

  // ---------- rfftblue_forward and rfftblue_backward ----------

  lemma BlueRoot(blue: BluePlan, root: nat -> Complex)
    requires RootFamily(root) && ValidBlue(blue, root)
    ensures blue.n > 0 && Mul(root(blue.n), Conj(root(blue.n))) == ONE && Pow(root(blue.n), blue.n) == ONE
    ensures Mul(Conj(root(blue.n)), Conj(Conj(root(blue.n)))) == ONE && Pow(Conj(root(blue.n)), blue.n) == ONE
  {
    CircleOf(root, blue.n);
  }

  lemma BackwardSign(w: Complex)
    ensures Signed(w, 1) == w && Signed(w, -1) == Conj(w)
  {}

  /** rfftblue_forward. */
  method RfftBlueForward(blue: BluePlan, c: array<real>, fct: real, root: nat -> Complex)
    requires RootFamily(root) && ValidBlue(blue, root) && c.Length == blue.n && (blue.n > 1 || fct == 1.0)
    modifies c
    ensures Unpacked(c[..]) == Scaled(fct, Transform(AsComplex(old(c[..])), Conj(root(blue.n))))
  {
    hide *;
    BlueRoot(blue, root);
    var n := blue.n;
    ghost var x, v := c[..], Conj(root(n));
    var tmp := Interleave(c);
    BackwardSign(root(n));
    BlueFft(blue, tmp, -1, fct, root);
    RealSpectrum(x, v);
    MirroredScaled(fct, Transform(AsComplex(x), v));
    KeepHalf(c, tmp);
    HalfIsPacked(c[..], tmp[..]);
  }

  method Interleave(c: array<real>) returns (tmp: array<Complex>)
    ensures fresh(tmp) && tmp.Length == c.Length && tmp[..] == AsComplex(c[..])
  {
    tmp := new Complex[c.Length];
    for m := 0 to c.Length
      invariant forall i :: 0 <= i < m ==> tmp[i] == Complex(c[i], 0.0)
    {
      tmp[m] := Complex(c[m], 0.0);
    }
  }

  /** The real part of the zero frequency, and the numbers behind its imaginary part. */
  method KeepHalf(c: array<real>, tmp: array<Complex>)
    requires c.Length == tmp.Length > 0
    modifies c
    ensures HoldsHalf(c[..], tmp[..])
  {
    c[0] := tmp[0].re;
    for i := 1 to c.Length
      invariant forall j: nat :: j < i ==> c[j] == HalfAt(tmp[..], j)
    {
      c[i] := if i % 2 == 1 then tmp[(i + 1) / 2].re else tmp[i / 2].im;
    }
  }

  /** rfftblue_backward. */
  method RfftBlueBackward(blue: BluePlan, c: array<real>, fct: real, root: nat -> Complex)
    requires RootFamily(root) && ValidBlue(blue, root) && c.Length == blue.n && (blue.n > 1 || fct == 1.0)
    modifies c
    ensures AsComplex(c[..]) == Scaled(fct, Transform(Unpacked(old(c[..])), root(blue.n)))
  {
    hide *;
    BlueRoot(blue, root);
    var n := blue.n;
    ghost var x, w := c[..], root(n);
    var tmp := Unfold(c);
    BackwardSign(w);
    BlueFft(blue, tmp, 1, fct, root);
    ghost var t := tmp[..];
    for m := 0 to n
      invariant tmp[..] == t && forall i :: 0 <= i < m ==> c[i] == t[i].re
    {
      c[m] := tmp[m].re;
    }
    AllReal(c[..], x, w, fct);
  }

  lemma AllReal(y: seq<real>, x: seq<real>, w: Complex, fct: real)
    requires |x| == |y| > 0 && Mul(w, Conj(w)) == ONE && Pow(w, |x|) == ONE
    requires forall i :: 0 <= i < |y| ==> y[i] == Scaled(fct, Transform(Unpacked(x), w))[i].re
    ensures AsComplex(y) == Scaled(fct, Transform(Unpacked(x), w))
  {
    hide Mul, Pow, DftAt, Unpacked;
    forall i | 0 <= i < |y|
      ensures AsComplex(y)[i] == Scaled(fct, Transform(Unpacked(x), w))[i]
    {
      RealSignal(x, w, i);
    }
  }

  /** The copy into the complex buffer, and its mirror image. */
  method Unfold(c: array<real>) returns (tmp: array<Complex>)
    requires c.Length > 0
    ensures fresh(tmp) && tmp.Length == c.Length && tmp[..] == Unpacked(c[..])
  {
    tmp := new Complex[c.Length];
    CopyHalf(c, tmp);
    LowerHalf(c, tmp);
    MirrorHalf(c, tmp);
  }

  method CopyHalf(c: array<real>, tmp: array<Complex>)
    requires c.Length == tmp.Length > 0
    modifies tmp
    ensures tmp[0] == Complex(c[0], 0.0)
    ensures forall m: nat :: m > 0 && 2 * m - 1 < c.Length ==> tmp[m].re == c[2 * m - 1]
    ensures forall m: nat :: m > 0 && 2 * m < c.Length ==> tmp[m].im == c[2 * m]
    ensures c.Length % 2 == 0 ==> tmp[c.Length / 2].im == 0.0
  {
    var n := c.Length;
    tmp[0] := Complex(c[0], 0.0);
    for i := 1 to n
      invariant tmp[0] == Complex(c[0], 0.0)
      invariant forall m: nat :: m > 0 && 2 * m - 1 < i ==> tmp[m].re == c[2 * m - 1]
      invariant forall m: nat :: m > 0 && 2 * m < i ==> tmp[m].im == c[2 * m]
    {
      if i % 2 == 1 {
        tmp[(i + 1) / 2] := Complex(c[i], tmp[(i + 1) / 2].im);
      } else {
        tmp[i / 2] := Complex(tmp[i / 2].re, c[i]);
      }
    }
    if n % 2 == 0 {
      tmp[n / 2] := Complex(tmp[n / 2].re, 0.0);
    }
  }

  method MirrorHalf(c: array<real>, tmp: array<Complex>)
    requires c.Length == tmp.Length > 0
    requires forall i: nat :: 2 * i <= c.Length && i < c.Length ==> tmp[i] == BlockBin(c[..], c.Length, 0, i)
    modifies tmp
    ensures tmp[..] == Unpacked(c[..])
  {
    hide BlockBin;
    var n := c.Length;
    for m := 1 to (n + 1) / 2
      invariant forall i: nat :: (2 * i <= n || n - m < i) && i < n ==> tmp[i] == BlockBin(c[..], n, 0, i)
    {
      BlockMirror(c[..], n, 0, n - m, m);
      tmp[n - m] := Conj(tmp[m]);
    }
  }

  lemma LowerHalf(c: array<real>, tmp: array<Complex>)
    requires c.Length == tmp.Length > 0 && tmp[0] == Complex(c[0], 0.0)
    requires forall m: nat :: m > 0 && 2 * m - 1 < c.Length ==> tmp[m].re == c[2 * m - 1]
    requires forall m: nat :: m > 0 && 2 * m < c.Length ==> tmp[m].im == c[2 * m]
    requires c.Length % 2 == 0 ==> tmp[c.Length / 2].im == 0.0
    ensures forall i: nat :: 2 * i <= c.Length && i < c.Length ==> tmp[i] == BlockBin(c[..], c.Length, 0, i)
  {
    assert Prod(c.Length, 0) == 0;
  }

  // ---------- plans of either kind ----------

  datatype RfftPlan = PackedReal(pack: RealPlan) | BlueReal(blue: BluePlan) {
    function Length(): nat { if PackedReal? then pack.length else blue.n }
  }

  ghost predicate ValidRfft(plan: RfftPlan, root: nat -> Complex) {
    match plan
    case PackedReal(pack) => ValidRealPlan(pack, root(pack.length))
    case BlueReal(blue) => ValidBlue(blue, root)
  }

  /** make_rfft_plan. `cost` stands for cost_guess: any cost function gives a correct plan. */
  method MakeRfft(length: nat, cost: nat -> real, turn: real -> Complex) returns (plan: Option<RfftPlan>)
    requires Circle(turn)
    ensures plan.Some? ==> length > 0 && plan.value.Length() == length && ValidRfft(plan.value, Root(turn))
    ensures 0 < length < Pow3(NFCT - 1) / 2 ==> plan.Some?
  {
    CircleIsRootFamily(turn);
    hide Circle, RootFamily, ValidRealPlan, ValidBlue, Pow3, Prime, Root;
    if length == 0 {
      return None;
    }
    var usePacked := length < 50;
    if !usePacked {
      var lpf := LargestPrimeFactor(length);
      usePacked := lpf * lpf <= length;
    }
    if !usePacked {
      var padded := GoodSize.Compute(2 * length - 1);
      var comp1, comp2 := 0.5 * cost(length), 2.0 * cost(padded);
      comp2 := comp2 * 1.5;
      usePacked := !(comp2 < comp1);
    }
    if usePacked {
      var pack := MakeRealPlan(length, turn);
      if pack.None? {
        return None;
      }
      plan := Some(PackedReal(pack.value));
    } else {
      var blue := MakeBlue(length, turn);
      if blue.None? {
        return None;
      }
      plan := Some(BlueReal(blue.value));
    }
  }

  /** rfft_forward. */
  method RfftForward(plan: RfftPlan, c: array<real>, fct: real, root: nat -> Complex)
    requires RootFamily(root) && ValidRfft(plan, root) && c.Length == plan.Length() && (plan.Length() > 1 || fct == 1.0)
    modifies c
    ensures Unpacked(c[..]) == Scaled(fct, Transform(AsComplex(old(c[..])), Conj(root(plan.Length()))))
  {
    hide RootFamily, ValidRealPlan, ValidBlue, Transform, Scaled, Unpacked, AsComplex, Conj;
    match plan {
      case PackedReal(pack) => RfftpForward(pack, c, fct, root);
      case BlueReal(blue) => RfftBlueForward(blue, c, fct, root);
    }
  }

  /** rfft_backward. */
  method RfftBackward(plan: RfftPlan, c: array<real>, fct: real, root: nat -> Complex)
    requires RootFamily(root) && ValidRfft(plan, root) && c.Length == plan.Length() && (plan.Length() > 1 || fct == 1.0)
    modifies c
    ensures AsComplex(c[..]) == Scaled(fct, Transform(Unpacked(old(c[..])), root(plan.Length())))
  {
    hide RootFamily, ValidRealPlan, ValidBlue, Transform, Scaled, Unpacked, AsComplex, Conj;
    match plan {
      case PackedReal(pack) => RfftpBackward(pack, c, fct, root);
      case BlueReal(blue) => RfftBlueBackward(blue, c, fct, root);
    }
  }

  // ---------- the words fft and ifft ----------

  /** The bins that fft is promised to leave: the frequencies from zero to the middle. */
  function HalfSpectrum(x: seq<real>, root: nat -> Complex): (bins: seq<Complex>)
    ensures |bins| == |x| / 2 + 1
  {
    seq(|x| / 2 + 1, (k: nat) => DftAt(AsComplex(x), Conj(root(|x|)), k))
  }

  /** The whole spectrum that bins stand for: real at both ends, its upper half the mirror image. */
  function FullSpectrum(bins: seq<Complex>, n: nat): (y: seq<Complex>)
    requires |bins| == n / 2 + 1
    ensures |y| == n
  {
    seq(n, m requires 0 <= m < n => if 2 * m <= n then Kept(n, m, bins[m]) else Conj(bins[n - m]))
  }

  /** p_fft. */
  method Fft(signal: seq<real>, cost: nat -> real, turn: real -> Complex) returns (r: Option<seq<Complex>>)
    requires Circle(turn)
    ensures |signal| < 1 ==> r.None?
    ensures 0 < |signal| < Pow3(NFCT - 1) / 2 ==> r.Some?
    ensures r.Some? ==> r.value == HalfSpectrum(signal, Root(turn))
  {
    CircleIsRootFamily(turn);
    hide *;
    var n := |signal|;
    if n < 1 {
      return None;
    }
    var packed := new real[n](i requires 0 <= i < n => signal[i]);
    assert packed[..] == signal;
    var plan := MakeRfft(n, cost, turn);
    if plan.None? {
      return None;
    }
    RfftForward(plan.value, packed, 1.0, Root(turn));
    ScaledByOne(Transform(AsComplex(signal), Conj(Root(turn)(n))));
    var bins := UnpackBins(packed);
    BinsAreHalf(bins, packed[..], signal, Root(turn));
    r := Some(bins);
  }

  /** The loop of p_fft that lays out the packed spectrum as rows of the matrix. */
  method UnpackBins(packed: array<real>) returns (bins: seq<Complex>)
    requires packed.Length > 0
    ensures |bins| == packed.Length / 2 + 1
    ensures bins[0] == Complex(packed[0], 0.0)
    ensures forall k: nat :: 0 < k < |bins| ==>
              bins[k] == Complex(packed[2 * k - 1], if 2 * k < packed.Length then packed[2 * k] else 0.0)
  {
    var n := packed.Length;
    bins := [Complex(packed[0], 0.0)];
    for k := 1 to n / 2 + 1
      invariant |bins| == k && bins[0] == Complex(packed[0], 0.0)
      invariant forall i: nat :: 0 < i < k ==>
                  bins[i] == Complex(packed[2 * i - 1], if 2 * i < n then packed[2 * i] else 0.0)
    {
      var realIndex := 2 * k - 1;
      bins := bins + [Complex(packed[realIndex], if realIndex + 1 < n then packed[realIndex + 1] else 0.0)];
    }
  }

  lemma PackedBin(y: seq<real>, k: nat)
    requires 0 < |y| && k <= |y| / 2
    ensures k == 0 ==> BlockBin(y, |y|, 0, 0) == Complex(y[0], 0.0)
    ensures 0 < k < |y| ==> BlockBin(y, |y|, 0, k) == Complex(y[2 * k - 1], if 2 * k < |y| then y[2 * k] else 0.0)
  {
    assert Prod(|y|, 0) == 0;
  }

  lemma BinsAreHalf(bins: seq<Complex>, y: seq<real>, x: seq<real>, root: nat -> Complex)
    requires |y| == |x| > 0 && |bins| == |y| / 2 + 1 && bins[0] == Complex(y[0], 0.0)
    requires forall k: nat :: 0 < k < |bins| ==> bins[k] == Complex(y[2 * k - 1], if 2 * k < |y| then y[2 * k] else 0.0)
    requires Unpacked(y) == Transform(AsComplex(x), Conj(root(|x|)))
    ensures bins == HalfSpectrum(x, root)
  {
    hide DftAt, AsComplex, Conj;
    forall k: nat | k < |bins|
      ensures bins[k] == HalfSpectrum(x, root)[k]
    {
      PackedBin(y, k);
      if |y| == 1 { assert k == 0; }
      assert Unpacked(y)[k] == BlockBin(y, |y|, 0, k) by { hide BlockBin; }
    }
  }

  const INT_MAX := 2147483647

  /** positive_length: a whole number from 1 on. */
  function PositiveLength(length: real): (n: Option<nat>)
    ensures n.Some? <==> 1.0 <= length <= INT_MAX as real && length.Floor as real == length
    ensures n.Some? ==> 0 < n.value <= INT_MAX && n.value as real == length
  {
    if length < 1.0 || length != length.Floor as real || length > INT_MAX as real then None else Some(length.Floor)
  }

  /** p_ifft: a request that passes its three tests is answered. */
  method Ifft(bins: seq<Complex>, length: real, cost: nat -> real, turn: real -> Complex) returns (r: Option<seq<real>>)
    requires Circle(turn)
    ensures r.Some? <==> |bins| >= 1 && PositiveLength(length).Some? && |bins| == PositiveLength(length).value / 2 + 1
    ensures r.Some? ==> AsComplex(r.value) == Signal(FullSpectrum(bins, PositiveLength(length).value), Root(turn))
  {
    CircleIsRootFamily(turn);
    hide *;
    if |bins| < 1 {
      return None;
    }
    var samples := PositiveLength(length);
    if samples.None? {
      return None;
    }
    var n := samples.value;
    if n / 2 + 1 != |bins| {
      return None;
    }
    var packed := PackBins(bins, n);
    PackedIsFull(packed[..], bins, n);
    var plan := MakeRfft(n, cost, turn);
    LengthsFit(n);
    if plan.None? {
      assert false;
      return None;
    }
    RfftBackward(plan.value, packed, 1.0 / n as real, Root(turn));
    SignalIs(FullSpectrum(bins, n), Root(turn));
    r := Some(packed[..]);
  }

  lemma LengthsFit(n: nat)
    requires n <= INT_MAX
    ensures n < Pow3(NFCT - 1) / 2
  {
    assert Pow3(8) == 6561;
    assert Pow3(16) == 43046721 by { assert Pow3(12) == 531441; }
    assert Pow3(20) == 3486784401;
    assert Pow3(24) == 282429536481;
  }

  lemma SignalIs(y: seq<Complex>, root: nat -> Complex)
    requires |y| > 0
    ensures Signal(y, root) == Scaled(1.0 / |y| as real, Transform(y, root(|y|)))
  {}

  /** The loop of p_ifft that packs the rows of the matrix. */
  method PackBins(bins: seq<Complex>, n: nat) returns (packed: array<real>)
    requires n > 0 && |bins| == n / 2 + 1
    ensures fresh(packed) && packed.Length == n && packed[0] == bins[0].re
    ensures forall k: nat :: 0 < k < |bins| ==>
              packed[2 * k - 1] == bins[k].re && (2 * k < n ==> packed[2 * k] == bins[k].im)
  {
    packed := new real[n];
    packed[0] := bins[0].re;
    for k := 1 to |bins|
      invariant packed[0] == bins[0].re
      invariant forall i: nat :: 0 < i < k ==>
                  packed[2 * i - 1] == bins[i].re && (2 * i < n ==> packed[2 * i] == bins[i].im)
    {
      var realIndex := 2 * k - 1;
      packed[realIndex] := bins[k].re;
      if realIndex + 1 < n {
        packed[realIndex + 1] := bins[k].im;
      }
    }
  }

  lemma PackedIsFull(y: seq<real>, bins: seq<Complex>, n: nat)
    requires |y| == n > 0 && |bins| == n / 2 + 1 && y[0] == bins[0].re
    requires forall k: nat :: 0 < k < |bins| ==> y[2 * k - 1] == bins[k].re && (2 * k < n ==> y[2 * k] == bins[k].im)
    ensures Unpacked(y) == FullSpectrum(bins, n)
  {
    forall m: nat | m < n
      ensures Unpacked(y)[m] == FullSpectrum(bins, n)[m]
    {
      var l := if 2 * m <= n then m else n - m;
      PackedBin(y, l);
      if l < m { BlockMirror(y, n, 0, m, l); }
      hide BlockBin;
    }
  }

  // ---------- each word undoes the other ----------

  /** The bins of a real signal stand for its whole spectrum. */
  lemma HalfIsEnough(x: seq<real>, root: nat -> Complex)
    requires RootFamily(root) && |x| > 0
    ensures FullSpectrum(HalfSpectrum(x, root), |x|) == Spectrum(AsComplex(x), root)
  {
    var n, t := |x|, Transform(AsComplex(x), Conj(root(|x|)));
    CircleOf(root, n);
    RealSpectrum(x, Conj(root(n)));
    hide DftAt, AsComplex, Conj, RootFamily, Mul, Pow;
    forall m: nat | m < n
      ensures FullSpectrum(HalfSpectrum(x, root), n)[m] == t[m]
    {
      MirroredKept(t, m);
      if 2 * m > n { assert t[n - (n - m)] == Conj(t[n - m]); }
    }
  }

  lemma MirroredKept(t: seq<Complex>, m: nat)
    requires Mirrored(t) && m < |t|
    ensures Kept(|t|, m, t[m]) == t[m]
  {
    if m > 0 && 2 * m == |t| { assert t[|t| - m] == Conj(t[m]); }
  }

  lemma SameReals(x: seq<real>, y: seq<real>)
    requires AsComplex(x) == AsComplex(y)
    ensures x == y
  {
    forall i | 0 <= i < |x|
      ensures x[i] == y[i]
    {
      assert AsComplex(x)[i] == AsComplex(y)[i];
    }
  }

  /** ifft undoes fft on every real signal. */
  lemma SignalReturns(x: seq<real>, z: seq<real>, root: nat -> Complex)
    requires RootFamily(root) && |x| > 0
    requires AsComplex(z) == Signal(FullSpectrum(HalfSpectrum(x, root), |x|), root)
    ensures z == x
  {
    hide *;
    HalfIsEnough(x, root);
    RoundTrip(AsComplex(x), root);
    SameReals(z, x);
  }

  /** fft undoes ifft, but for the imaginary parts that ifft ignores. */
  lemma SpectrumReturns(bins: seq<Complex>, n: nat, z: seq<real>, root: nat -> Complex)
    requires RootFamily(root) && n > 0 && |bins| == n / 2 + 1
    requires AsComplex(z) == Signal(FullSpectrum(bins, n), root)
    ensures HalfSpectrum(z, root) == seq(|bins|, k requires 0 <= k < |bins| => Kept(n, k, bins[k]))
  {
    var y := FullSpectrum(bins, n);
    RoundTrip(y, root);
    assert |Signal(y, root)| == n == |z|;
    hide DftAt, AsComplex, Conj, RootFamily, Signal, Kept;
    forall k: nat | k < |bins|
      ensures HalfSpectrum(z, root)[k] == Kept(n, k, bins[k])
    {
      assert Spectrum(AsComplex(z), root) == y;
      if n == 1 {
        assert k == 0;
      }
      assert Spectrum(AsComplex(z), root)[k] == DftAt(AsComplex(z), Conj(root(n)), k);
    }
  }

  /** fft, then ifft with the signal's length. */
  method FftThenIfft(x: seq<real>, cost: nat -> real, turn: real -> Complex) returns (r: Option<seq<real>>)
    requires Circle(turn)
    ensures r == if 0 < |x| <= INT_MAX then Some(x) else None
  {
    CircleIsRootFamily(turn);
    hide *;
    WholeLength(|x|);
    var s := Fft(x, cost, turn);
    if s.None? {
      return None;
    }
    r := Ifft(s.value, |x| as real, cost, turn);
    if r.Some? {
      SignalReturns(x, r.value, Root(turn));
    }
  }

  lemma WholeLength(n: nat)
    ensures PositiveLength(n as real) == if 0 < n <= INT_MAX then Some(n) else None
    ensures n <= INT_MAX ==> n < Pow3(NFCT - 1) / 2
  {
    if n <= INT_MAX { LengthsFit(n); }
  }

  /** ifft, then fft on what it left. */
  method IfftThenFft(bins: seq<Complex>, length: real, cost: nat -> real, turn: real -> Complex)
    returns (r: Option<seq<Complex>>)
    requires Circle(turn)
    ensures r.Some? <==> |bins| >= 1 && PositiveLength(length).Some? && |bins| == PositiveLength(length).value / 2 + 1
    ensures r.Some? ==> r.value == seq(|bins|, k requires 0 <= k < |bins| => Kept(PositiveLength(length).value, k,
            bins[k]))
  {
    CircleIsRootFamily(turn);
    hide *;
    var z := Ifft(bins, length, cost, turn);
    if z.None? {
      return None;
    }
    var n := PositiveLength(length).value;
    SignalSize(z.value, FullSpectrum(bins, n), Root(turn));
    LengthsFit(n);
    r := Fft(z.value, cost, turn);
    SpectrumReturns(bins, n, z.value, Root(turn));
  }

  lemma SignalSize(z: seq<real>, y: seq<Complex>, root: nat -> Complex)
    requires AsComplex(z) == Signal(y, root)
    ensures |z| == |y|
  {}
}
