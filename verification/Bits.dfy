/** Bit strings: numbers written with the lowest bit first, or with the highest bit first. */
module Bits {
  import opened Division

  type byte = b: int | 0 <= b < 256

  function Pow2(n: nat): (p: nat)
    ensures p > 0
  {
    if n == 0 then 1 else 2 * Pow2(n - 1)
  }

  /** The `n` low bits of `v`, lowest first: how DEFLATE packs plain numbers. */
  function Lsb(v: nat, n: nat): (s: seq<bool>)
    ensures |s| == n
  {
    if n == 0 then [] else [v % 2 == 1] + Lsb(v / 2, n - 1)
  }

  /** The `n` low bits of `v`, highest first: how DEFLATE packs Huffman codes. */
  function Msb(v: nat, n: nat): (s: seq<bool>)
    ensures |s| == n
  {
    if n == 0 then [] else Msb(v / 2, n - 1) + [v % 2 == 1]
  }

  /** The number whose lowest bit comes first in `s`. */
  function Value(s: seq<bool>): nat {
    if s == [] then 0 else (if s[0] then 1 else 0) + 2 * Value(s[1..])
  }

  /** The number whose highest bit comes first in `s`. */
  function MsbValue(s: seq<bool>): nat {
    if s == [] then 0 else 2 * MsbValue(s[..|s| - 1]) + (if s[|s| - 1] then 1 else 0)
  }

  function BitsOf(bytes: seq<byte>): (s: seq<bool>)
    ensures |s| == 8 * |bytes|
  {
    if bytes == [] then [] else Lsb(bytes[0], 8) + BitsOf(bytes[1..])
  }

  lemma {:induction false} BitsOfAppend(a: seq<byte>, b: seq<byte>)
    ensures BitsOf(a + b) == BitsOf(a) + BitsOf(b)
  {
    hide Lsb;
    if a == [] {
      assert a + b == b;
    } else {
      BitsOfAppend(a[1..], b);
      assert (a + b)[1..] == a[1..] + b;
    }
  }

  lemma BitsOfOne(b: byte)
    ensures BitsOf([b]) == Lsb(b, 8)
  {
    assert [b][1..] == [];
  }

  lemma {:induction false} Pow2Add(a: nat, b: nat)
    ensures Pow2(a + b) == Pow2(a) * Pow2(b)
  {
    if a != 0 { Pow2Add(a - 1, b); }
  }

  lemma TwiceOver(p: nat, hi: nat)
    ensures (2 * p) * hi == 2 * (p * hi)
  {}

  /** Halving a number with `hi` above bit `a`. */
  lemma HalfOfSum(lo: nat, hi: nat, a: nat)
    requires a > 0
    ensures (lo + Pow2(a) * hi) / 2 == lo / 2 + Pow2(a - 1) * hi && (lo + Pow2(a) * hi) % 2 == lo % 2
  {
    var m := Pow2(a - 1) * hi;
    TwiceOver(Pow2(a - 1), hi);
    assert Pow2(a) * hi == 2 * m;
    hide Pow2;
  }

  /** Splitting a number at bit `a` splits its bits at index `a`. */
  lemma {:induction false} LsbSplit(lo: nat, hi: nat, a: nat, b: nat)
    requires lo < Pow2(a)
    ensures Lsb(lo + Pow2(a) * hi, a + b) == Lsb(lo, a) + Lsb(hi, b)
  {
    if a == 0 {
      assert lo + Pow2(0) * hi == hi;
      assert Lsb(lo, 0) == [];
    } else {
      assert Pow2(a) == 2 * Pow2(a - 1);
      hide Pow2;
      LsbSplit(lo / 2, hi, a - 1, b);
      HalfOfSum(lo, hi, a);
    }
  }

  /** Bits above the ones asked for do not matter. */
  lemma {:induction false} LsbIgnoresHigh(lo: nat, hi: nat, n: nat)
    ensures Lsb(lo + Pow2(n) * hi, n) == Lsb(lo, n)
  {
    if n != 0 {
      LsbIgnoresHigh(lo / 2, hi, n - 1);
      HalfOfSum(lo, hi, n);
      hide Pow2;
    }
  }

  lemma {:induction false} ValueOfLsb(v: nat, n: nat)
    requires v < Pow2(n)
    ensures Value(Lsb(v, n)) == v
  {
    if n != 0 {
      ValueOfLsb(v / 2, n - 1);
      assert Lsb(v, n)[1..] == Lsb(v / 2, n - 1);
    }
  }

  lemma {:induction false} MsbValueOfMsb(v: nat, n: nat)
    requires v < Pow2(n)
    ensures MsbValue(Msb(v, n)) == v
  {
    if n != 0 {
      MsbValueOfMsb(v / 2, n - 1);
      assert Msb(v, n)[..n - 1] == Msb(v / 2, n - 1);
    }
  }

  /** The leading bits of a highest-first string are its number divided down. */
  lemma {:induction false} MsbValuePrefix(s: seq<bool>, k: nat)
    requires k <= |s|
    ensures MsbValue(s) / Pow2(|s| - k) == MsbValue(s[..k])
    decreases |s|
  {
    if k == |s| {
      assert s[..k] == s;
    } else {
      var t := s[..|s| - 1];
      MsbValuePrefix(t, k);
      assert t[..k] == s[..k];
      HalveFirst(MsbValue(s), Pow2(|t| - k));
      assert MsbValue(s) / 2 == MsbValue(t);
      assert Pow2(|s| - k) == 2 * Pow2(|t| - k);
    }
  }

  lemma HalveFirst(a: nat, p: nat)
    requires p > 0
    ensures a / (2 * p) == (a / 2) / p
  {
    var h := a / 2;
    var q, r := h / p, h % p;
    assert h == p * q + r;
    var rest := a - 2 * p * q;
    assert a == (2 * p) * q + rest && 0 <= rest < 2 * p;
    ModUnique(a, 2 * p, q, rest);
  }

  /** Writing highest first is writing lowest first backwards. */
  lemma {:induction false} MsbIsReversedLsb(v: nat, n: nat, i: nat)
    requires i < n
    ensures Msb(v, n)[n - 1 - i] == Lsb(v, n)[i]
  {
    if i != 0 { MsbIsReversedLsb(v / 2, n - 1, i - 1); }
  }

  /** `v >> n`. */
  function Shifted(v: nat, n: nat): nat { if n == 0 then v else Shifted(v / 2, n - 1) }

  lemma {:induction false} LsbAt(v: nat, n: nat, i: nat)
    requires i < n
    ensures Lsb(v, n)[i] == (Shifted(v, i) % 2 == 1)
  {
    if i != 0 { LsbAt(v / 2, n - 1, i - 1); }
  }

  lemma OrderKept(p: nat, x: nat, y: nat)
    requires x <= y
    ensures p * x <= p * y
  {}

  /** Taking `n` low bits off a number drops the first `n` of its bits. */
  lemma LsbDrop(v: nat, c: nat, n: nat)
    requires v < Pow2(c) && n <= c
    ensures Lsb(v, c) == Lsb(v % Pow2(n), n) + Lsb(v / Pow2(n), c - n)
    ensures v / Pow2(n) < Pow2(c - n)
  {
    hide Lsb, Pow2;
    var p, q := Pow2(n), v / Pow2(n);
    assert v == v % p + p * q;
    LsbSplit(v % p, q, n, c - n);
    Pow2Add(n, c - n);
    if q >= Pow2(c - n) {
      OrderKept(p, Pow2(c - n), q);
    }
  }
}
