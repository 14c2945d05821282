/** Canonical Huffman codes (section 3.2.2 of RFC 1951) and the sorted keys tigr searches. */
module Huffman {
  import opened Bits

  /** A code-length vector: symbol `n` has a code of `lens[n]` bits, or none when that is 0. */
  ghost predicate Lengths(lens: seq<nat>) {
    |lens| <= 288 && forall n :: 0 <= n < |lens| ==> lens[n] <= 15
  }

  /** How many of the first `n` symbols have codes of length `l`. */
  function Count(lens: seq<nat>, l: nat, n: nat): (c: nat)
    ensures c <= n
  {
    if n == 0 then 0 else Count(lens, l, n - 1) + if n <= |lens| && lens[n - 1] == l then 1 else 0
  }

  /** `bl_count[l]`, with the count of unused symbols cleared. */
  function Used(lens: seq<nat>, l: nat): nat { if l == 0 then 0 else Count(lens, l, |lens|) }

  /** The smallest code of length `l`. */
  function FirstCode(lens: seq<nat>, l: nat): nat {
    if l == 0 then 0 else 2 * (FirstCode(lens, l - 1) + Used(lens, l - 1))
  }

  /** How many symbols have shorter codes. */
  function FirstSlot(lens: seq<nat>, l: nat): nat {
    if l == 0 then 0 else FirstSlot(lens, l - 1) + Used(lens, l - 1)
  }

  function CodeOf(lens: seq<nat>, n: nat): nat
    requires n < |lens|
  {
    FirstCode(lens, lens[n]) + Count(lens, lens[n], n)
  }

  /** Where symbol `n` stands when symbols are sorted by length, then by number. */
  function SlotOf(lens: seq<nat>, n: nat): nat
    requires n < |lens|
  {
    FirstSlot(lens, lens[n]) + Count(lens, lens[n], n)
  }

  function Total(lens: seq<nat>): nat { FirstSlot(lens, 15) + Used(lens, 15) }

  ghost predicate HasCode(lens: seq<nat>, n: nat) { n < |lens| && lens[n] != 0 }

  /** The code of symbol `n` as the stream shows it. */
  function CodeBits(lens: seq<nat>, n: nat): seq<bool>
    requires n < |lens|
  {
    Msb(CodeOf(lens, n), lens[n])
  }

  // ---------- the Kraft sum ----------

  /** The Kraft sum of the first `n` symbols, times `2^l`, over codes of at most `l` bits. */
  function Kraft(lens: seq<nat>, n: nat, l: nat): nat
    requires n <= |lens|
  {
    if n == 0 then 0 else Kraft(lens, n - 1, l) + if 0 < lens[n - 1] <= l then Pow2(l - lens[n - 1]) else 0
  }

  /** The Kraft sum is at most 1. */
  ghost predicate KraftOk(lens: seq<nat>) { Kraft(lens, |lens|, 15) <= Pow2(15) }

  lemma {:induction false} KraftStep(lens: seq<nat>, n: nat, l: nat)
    requires n <= |lens| && l > 0
    ensures Kraft(lens, n, l) == 2 * Kraft(lens, n, l - 1) + Count(lens, l, n)
  {
    if n != 0 {
      KraftStep(lens, n - 1, l);
      var x := lens[n - 1];
      if 0 < x < l {
        assert Pow2(l - x) == 2 * Pow2(l - 1 - x);
      } else if x == l {
        assert Pow2(0) == 1;
      }
    }
  }

  /** The codes of length `l` end where the Kraft sum up to `l` says. */
  lemma {:induction false} KraftIsCodeEnd(lens: seq<nat>, l: nat)
    ensures Kraft(lens, |lens|, l) == FirstCode(lens, l) + Used(lens, l)
  {
    if l == 0 {
      KraftOfNothing(lens, |lens|);
    } else {
      KraftStep(lens, |lens|, l);
      KraftIsCodeEnd(lens, l - 1);
    }
  }

  lemma {:induction false} KraftOfNothing(lens: seq<nat>, n: nat)
    requires n <= |lens|
    ensures Kraft(lens, n, 0) == 0
  {
    if n != 0 { KraftOfNothing(lens, n - 1); }
  }

  /** Under the Kraft inequality the codes of every length fit their length. */
  lemma {:induction false} CodesFit(lens: seq<nat>, l: nat)
    requires KraftOk(lens) && l <= 15
    ensures FirstCode(lens, l) + Used(lens, l) <= Pow2(l)
    decreases 15 - l
  {
    if l == 15 {
      KraftIsCodeEnd(lens, 15);
    } else {
      CodesFit(lens, l + 1);
      assert Pow2(l + 1) == 2 * Pow2(l);
      assert FirstCode(lens, l + 1) == 2 * (FirstCode(lens, l) + Used(lens, l));
    }
  }

  lemma {:induction false} CountGrows(lens: seq<nat>, l: nat, a: nat, b: nat)
    requires a <= b <= |lens|
    ensures Count(lens, l, a) <= Count(lens, l, b)
    ensures (exists n :: a <= n < b && lens[n] == l) ==> Count(lens, l, a) < Count(lens, l, b)
    decreases b
  {
    if a < b { CountGrows(lens, l, a, b - 1); }
  }

  lemma CodeFits(lens: seq<nat>, n: nat)
    requires Lengths(lens) && KraftOk(lens) && HasCode(lens, n)
    ensures CodeOf(lens, n) + 1 <= FirstCode(lens, lens[n]) + Used(lens, lens[n]) <= Pow2(lens[n])
  {
    CountGrows(lens, lens[n], n, |lens|);
    CodesFit(lens, lens[n]);
  }

  // ---------- order ----------

  lemma {:induction false} SlotsOrdered(lens: seq<nat>, a: nat, b: nat)
    requires a < b
    ensures FirstSlot(lens, a) + Used(lens, a) <= FirstSlot(lens, b)
    decreases b
  {
    if a < b - 1 { SlotsOrdered(lens, a, b - 1); }
  }

  /** All used symbols together fill the slots, none beyond the symbol count. */
  lemma {:induction false} SlotsBelowCount(lens: seq<nat>, l: nat)
    ensures FirstSlot(lens, l) + Used(lens, l) == CountUpTo(lens, l, |lens|) <= |lens|
  {
    if l == 0 {
      CountUpToZero(lens, |lens|);
    } else {
      SlotsBelowCount(lens, l - 1);
      CountUpToStep(lens, l, |lens|);
    }
  }

  function CountUpTo(lens: seq<nat>, l: nat, n: nat): (c: nat)
    requires n <= |lens|
    ensures c <= n
  {
    if n == 0 then 0 else CountUpTo(lens, l, n - 1) + if 0 < lens[n - 1] <= l then 1 else 0
  }

  lemma {:induction false} CountUpToZero(lens: seq<nat>, n: nat)
    requires n <= |lens|
    ensures CountUpTo(lens, 0, n) == 0
  {
    if n != 0 { CountUpToZero(lens, n - 1); }
  }

  lemma {:induction false} CountUpToStep(lens: seq<nat>, l: nat, n: nat)
    requires n <= |lens| && l > 0
    ensures CountUpTo(lens, l, n) == CountUpTo(lens, l - 1, n) + Count(lens, l, n)
  {
    if n != 0 { CountUpToStep(lens, l, n - 1); }
  }

  lemma SlotInRange(lens: seq<nat>, n: nat)
    requires Lengths(lens) && HasCode(lens, n)
    ensures FirstSlot(lens, lens[n]) <= SlotOf(lens, n) < FirstSlot(lens, lens[n]) + Used(lens, lens[n]) <= Total(lens)
              <= |lens|
  {
    CountGrows(lens, lens[n], n, |lens|);
    SlotsBelowCount(lens, 15);
    if lens[n] < 15 {
      SlotsOrdered(lens, lens[n], 15);
    }
  }

  /** Symbols with codes have slots of their own. */
  lemma SlotInjective(lens: seq<nat>, n: nat, m: nat)
    requires Lengths(lens) && HasCode(lens, n) && HasCode(lens, m) && n != m
    ensures SlotOf(lens, n) != SlotOf(lens, m)
  {
    SlotInRange(lens, n);
    SlotInRange(lens, m);
    if lens[n] < lens[m] {
      SlotsOrdered(lens, lens[n], lens[m]);
    } else if lens[m] < lens[n] {
      SlotsOrdered(lens, lens[m], lens[n]);
    } else if n < m {
      CountGrows(lens, lens[n], n, m);
    } else {
      CountGrows(lens, lens[n], m, n);
    }
  }

  lemma {:induction false} SymbolOfRank(lens: seq<nat>, l: nat, k: nat, n: nat) returns (m: nat)
    requires n <= |lens| && k < Count(lens, l, n)
    ensures m < n && lens[m] == l && Count(lens, l, m) == k
    decreases n
  {
    if k < Count(lens, l, n - 1) {
      m := SymbolOfRank(lens, l, k, n - 1);
    } else {
      m := n - 1;
    }
  }

  /** Every slot belongs to a symbol. */
  lemma {:induction false} SymbolOfSlot(lens: seq<nat>, s: nat, l: nat) returns (m: nat)
    requires Lengths(lens) && l <= 15 && s < FirstSlot(lens, l) + Used(lens, l)
    ensures HasCode(lens, m) && SlotOf(lens, m) == s
    decreases l
  {
    if s >= FirstSlot(lens, l) {
      m := SymbolOfRank(lens, l, s - FirstSlot(lens, l), |lens|);
    } else {
      m := SymbolOfSlot(lens, s, l - 1);
    }
  }

  // ---------- keys ----------

  /** A code pushed to the left of a 16-bit word. */
  function Justified(lens: seq<nat>, n: nat): nat
    requires n < |lens|
  {
    CodeOf(lens, n) * Pow2(if lens[n] <= 16 then 16 - lens[n] else 0)
  }

  /** What `build` stores for symbol `n`: the code pushed left in 32 bits, the symbol, the length. */
  function Key(lens: seq<nat>, n: nat): nat
    requires n < |lens|
  {
    Justified(lens, n) * 0x10000 + n * 16 + lens[n]
  }

  lemma JustifiedStep(lens: seq<nat>, l: nat)
    requires l < 16
    ensures FirstCode(lens, l + 1) * Pow2(16 - (l + 1)) == (FirstCode(lens, l) + Used(lens, l)) * Pow2(16 - l)
  {
    var x, p := FirstCode(lens, l) + Used(lens, l), Pow2(16 - (l + 1));
    assert Pow2(16 - l) == 2 * p;
    assert FirstCode(lens, l + 1) == 2 * x;
    TwiceEither(x, p);
  }

  lemma TwiceEither(x: nat, p: nat)
    ensures (2 * x) * p == x * (2 * p)
  {}

  /** Pushed left, the codes of length `a` end no later than those of length `b` begin. */
  lemma {:induction false} LengthsOrdered(lens: seq<nat>, a: nat, b: nat)
    requires a < b <= 16
    ensures (FirstCode(lens, a) + Used(lens, a)) * Pow2(16 - a) <= FirstCode(lens, b) * Pow2(16 - b)
    decreases b
  {
    JustifiedStep(lens, b - 1);
    if a < b - 1 {
      LengthsOrdered(lens, a, b - 1);
      AddedPart(FirstCode(lens, b - 1), Used(lens, b - 1), Pow2(16 - (b - 1)));
    }
  }

  lemma AddedPart(x: nat, y: nat, p: nat)
    ensures x * p <= (x + y) * p
  {}

  lemma ProductOrder(x: nat, y: nat, p: nat)
    requires x <= y
    ensures x * p <= y * p
  {}

  /** A later slot's code lies behind all that extends an earlier slot's code. */
  lemma KeysOrdered(lens: seq<nat>, n: nat, m: nat)
    requires Lengths(lens) && HasCode(lens, n) && HasCode(lens, m) && SlotOf(lens, n) < SlotOf(lens, m)
    ensures Justified(lens, n) + Pow2(16 - lens[n]) <= Justified(lens, m)
  {
    var a, b := lens[n], lens[m];
    SlotInRange(lens, n);
    SlotInRange(lens, m);
    if b < a {
      SlotsOrdered(lens, b, a);
      assert false;
    }
    CountGrows(lens, a, n, |lens|);
    var c := CodeOf(lens, n);
    Distribute1(c, Pow2(16 - a));
    if a == b {
      ProductOrder(c + 1, CodeOf(lens, m), Pow2(16 - a));
    } else {
      ProductOrder(c + 1, FirstCode(lens, a) + Used(lens, a), Pow2(16 - a));
      LengthsOrdered(lens, a, b);
      ProductOrder(FirstCode(lens, b), CodeOf(lens, m), Pow2(16 - b));
    }
  }

  lemma Distribute1(c: nat, p: nat)
    ensures (c + 1) * p == c * p + p
  {}

  lemma JustifiedFits(lens: seq<nat>, n: nat)
    requires Lengths(lens) && KraftOk(lens) && HasCode(lens, n)
    ensures Justified(lens, n) + Pow2(16 - lens[n]) <= Pow2(16)
  {
    var c, l := CodeOf(lens, n), lens[n];
    CodeFits(lens, n);
    Distribute1(c, Pow2(16 - l));
    ProductOrder(c + 1, Pow2(l), Pow2(16 - l));
    Pow2Add(l, 16 - l);
  }

  /** `tree` holds every symbol's key in its slot. */
  ghost predicate Tree(tree: seq<nat>, lens: seq<nat>) {
    && Total(lens) <= |tree|
    && forall n: nat :: HasCode(lens, n) ==> SlotOf(lens, n) < |tree| && tree[SlotOf(lens, n)] == Key(lens, n)
  }

  lemma Pow2Of16()
    ensures Pow2(16) == 0x10000
  {
    assert Pow2(4) == 16;
    Pow2Add(4, 4);
    Pow2Add(8, 8);
  }

  /** The keys increase strictly along the slots. */
  lemma TreeSorted(tree: seq<nat>, lens: seq<nat>, s: nat, t: nat)
    requires Lengths(lens) && Tree(tree, lens) && s < t < Total(lens)
    ensures tree[s] < tree[t]
  {
    var n := SymbolOfSlot(lens, s, 15);
    var m := SymbolOfSlot(lens, t, 15);
    KeysOrdered(lens, n, m);
    hide Justified, SlotOf, Total;
    assert tree[s] == Key(lens, n) && tree[t] == Key(lens, m);
  }
}
