/** Half-complex spectra in real buffers: how a block of numbers holds a symmetric spectrum. */
module RealSpectra {
  import opened Basics
  import opened Complexes
  import opened RadixPass

  function Slot(x: seq<real>, i: nat): real { if i < |x| then x[i] else 0.0 }

  /** CC and CH of the real passes: cell `i` of position `k` in row `row`. */
  function CellAt(s: seq<real>, ido: nat, mid: nat, i: nat, k: nat, row: nat): real {
    Slot(s, Idx(i, ido, Idx(k, mid, row)))
  }

  /** Frequency `m` of the spectrum of `len` values held at `off`: the zero frequency, then pairs of
      real and imaginary parts, then the middle one, if there is one; the rest is their mirror image. */
  function Bin(x: seq<real>, off: nat, len: nat, m: nat): Complex {
    if m >= len then ZERO
    else if m == 0 then Complex(Slot(x, off), 0.0)
    else if 2 * m < len then Complex(Slot(x, off + 2 * m - 1), Slot(x, off + 2 * m))
    else if 2 * m == len then Complex(Slot(x, off + len - 1), 0.0)
    else Complex(Slot(x, off + 2 * (len - m) - 1), -Slot(x, off + 2 * (len - m)))
  }

  lemma BinMirror(x: seq<real>, off: nat, len: nat, m: nat)
    requires 0 < m < len
    ensures Bin(x, off, len, len - m) == Conj(Bin(x, off, len, m))
  {}

  lemma BinReal(x: seq<real>, off: nat, len: nat)
    ensures Conj(Bin(x, off, len, 0)) == Bin(x, off, len, 0)
  {}

  /** What is kept of a value: where the spectrum is real, the real part. */
  function Kept(len: nat, m: nat, v: Complex): Complex { if m == 0 || 2 * m == len then Complex(v.re, 0.0) else v }

  lemma KeptReal(len: nat, m: nat, v: Complex)
    requires m == 0 || 2 * m == len ==> Conj(v) == v
    ensures Kept(len, m, v) == v
  {}

  /** The buffer after frequency `m` of a block is stored. */
  function Stored(x: seq<real>, off: nat, len: nat, m: nat, v: Complex): (y: seq<real>)
    requires m < len && off + len <= |x|
    ensures |y| == |x|
  {
    if m == 0 then x[off := v.re]
    else if 2 * m < len then x[off + 2 * m - 1 := v.re][off + 2 * m := v.im]
    else if 2 * m == len then x[off + len - 1 := v.re]
    else x[off + 2 * (len - m) - 1 := v.re][off + 2 * (len - m) := -v.im]
  }

  lemma StoredIs(x: seq<real>, off: nat, len: nat, m: nat, v: Complex)
    requires m < len && off + len <= |x|
    ensures Bin(Stored(x, off, len, m, v), off, len, m) == Kept(len, m, v)
  {}

  /** Only a frequency and its mirror image share their slots. */
  lemma StoredElsewhere(x: seq<real>, off: nat, len: nat, m: nat, v: Complex, k: nat)
    requires m < len && off + len <= |x| && k < len && k != m && k + m != len
    ensures Bin(Stored(x, off, len, m, v), off, len, k) == Bin(x, off, len, k)
  {}

  lemma StoredOutside(x: seq<real>, off: nat, len: nat, m: nat, v: Complex, o: nat, n: nat, k: nat)
    requires m < len && off + len <= |x| && (o + n <= off || off + len <= o)
    ensures Bin(Stored(x, off, len, m, v), o, n, k) == Bin(x, o, n, k)
  {}

  // ---------- buffers of blocks ----------

  /** Frequency `m` of block `b` in a buffer of blocks of `len`. */
  function BlockBin(x: seq<real>, len: nat, b: nat, m: nat): Complex { Bin(x, Prod(len, b), len, m) }

  function BlockStored(x: seq<real>, len: nat, b: nat, m: nat, v: Complex): (y: seq<real>)
    requires m < len && Prod(len, b) + len <= |x|
    ensures |y| == |x|
  {
    Stored(x, Prod(len, b), len, m, v)
  }

  lemma BlocksApart(len: nat, a: nat, b: nat)
    requires a < b
    ensures Prod(len, a) + len <= Prod(len, b)
  {
    MulMonotone(len, a + 1, b);
  }

  lemma BlockInside(len: nat, b: nat, blocks: nat)
    requires b < blocks
    ensures Prod(len, b) + len <= Prod(len, blocks)
  {
    BlocksApart(len, b, blocks);
  }

  /** After a store, what is in the other slots is still there. */
  lemma BlockStoredBins(x: seq<real>, len: nat, b: nat, m: nat, v: Complex)
    requires m < len && Prod(len, b) + len <= |x|
    ensures BlockBin(BlockStored(x, len, b, m, v), len, b, m) == Kept(len, m, v)
    ensures forall a: nat, k: nat :: k < len && (a != b || (k != m && k + m != len)) ==>
              BlockBin(BlockStored(x, len, b, m, v), len, a, k) == BlockBin(x, len, a, k)
  {
    StoredIs(x, Prod(len, b), len, m, v);
    forall a: nat, k: nat | k < len && (a != b || (k != m && k + m != len))
      ensures BlockBin(BlockStored(x, len, b, m, v), len, a, k) == BlockBin(x, len, a, k)
    {
      if a == b {
        StoredElsewhere(x, Prod(len, b), len, m, v, k);
      } else {
        if a < b { BlocksApart(len, a, b); } else { BlocksApart(len, b, a); }
        StoredOutside(x, Prod(len, b), len, m, v, Prod(len, a), len, k);
      }
    }
  }

  /** The stores of one value into its slots. */
  method StoreBin(buf: array<real>, len: nat, b: nat, m: nat, v: Complex)
    requires m < len && Prod(len, b) + len <= buf.Length
    modifies buf
    ensures buf[..] == BlockStored(old(buf[..]), len, b, m, v)
  {
    var off := Prod(len, b);
    hide Prod;
    ghost var x := buf[..];
    if m == 0 {
      buf[off] := v.re;
    } else if 2 * m < len {
      buf[off + 2 * m - 1] := v.re;
      buf[off + 2 * m] := v.im;
    } else if 2 * m == len {
      buf[off + len - 1] := v.re;
    } else {
      buf[off + 2 * (len - m) - 1] := v.re;
      buf[off + 2 * (len - m)] := -v.im;
    }
    assert buf[..] == Stored(x, off, len, m, v);
  }
}
