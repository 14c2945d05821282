/** What compressed blocks mean, and why the search through the sorted keys finds their symbols. */
module Symbols {
  import opened Bits
  import opened Division
  import opened Huffman

  // ---------- the meaning of a compressed block ----------

  const LEN_BITS: seq<nat> := [0, 0, 0, 0, 0, 0, 0, 0, 1, 1, 1, 1, 2, 2, 2, 2, 3, 3, 3, 3, 4, 4, 4, 4, 5, 5, 5, 5, 0, 0,
                               0]
  const LEN_BASE: seq<nat> := [3, 4, 5, 6, 7, 8, 9, 10, 11, 13, 15, 17, 19, 23, 27, 31,
                               35, 43, 51, 59, 67, 83, 99, 115, 131, 163, 195, 227, 258, 0, 0]
  const DIST_BITS: seq<nat> := [0, 0, 0, 0, 1, 1, 2, 2, 3, 3, 4, 4, 5, 5, 6, 6,
                                7, 7, 8, 8, 9, 9, 10, 10, 11, 11, 12, 12, 13, 13, 0, 0]
  const DIST_BASE: seq<nat> := [1, 2, 3, 4, 5, 7, 9, 13, 17, 25, 33, 49, 65, 97, 129,
                                193, 257, 385, 513, 769, 1025, 1537, 2049, 3073, 4097, 6145, 8193, 12289, 16385, 24577,
                                0, 0]

  function LenBits(sym: nat): (r: nat)
    requires sym < 31
    ensures r <= 5
  {
    LEN_BITS[sym]
  }

  function LenBase(sym: nat): (r: nat)
    requires sym < 31
  {
    LEN_BASE[sym]
  }

  function DistBits(sym: nat): (r: nat)
    requires sym < 32
    ensures r <= 13
  {
    DIST_BITS[sym]
  }

  function DistBase(sym: nat): (r: nat)
    requires sym < 32
  {
    DIST_BASE[sym]
  }

  /** A literal byte, or a copy given by its symbols and extra bits. */
  datatype Item = Literal(b: byte) | Copy(lsym: nat, lextra: nat, dsym: nat, dextra: nat)

  ghost predicate ItemOk(item: Item, lit: seq<nat>, dist: seq<nat>) {
    match item
    case Literal(b) => HasCode(lit, b)
    case Copy(lsym, lextra, dsym, dextra) =>
      && lsym < 29 && dsym < 30
      && HasCode(lit, 257 + lsym) && HasCode(dist, dsym)
      && lextra < Pow2(LenBits(lsym)) && dextra < Pow2(DistBits(dsym))
  }

  function ItemCode(item: Item, lit: seq<nat>, dist: seq<nat>): seq<bool>
    requires ItemOk(item, lit, dist)
  {
    match item
    case Literal(b) => CodeBits(lit, b)
    case Copy(lsym, lextra, dsym, dextra) =>
      CodeBits(lit, 257 + lsym) + (Lsb(lextra, LenBits(lsym)) + (CodeBits(dist, dsym) + Lsb(dextra, DistBits(dsym))))
  }

  ghost predicate ItemsOk(items: seq<Item>, lit: seq<nat>, dist: seq<nat>) {
    forall i :: 0 <= i < |items| ==> ItemOk(items[i], lit, dist)
  }

  function ItemsCode(items: seq<Item>, lit: seq<nat>, dist: seq<nat>): seq<bool>
    requires ItemsOk(items, lit, dist)
  {
    if items == [] then [] else ItemCode(items[0], lit, dist) + ItemsCode(items[1..], lit, dist)
  }

  /** Copying one byte at a time, so that a copy may run into what it has itself produced. */
  function CopyBack(out: seq<byte>, d: nat, n: nat): (r: seq<byte>)
    requires 0 < d <= |out|
    ensures |r| == |out| + n && out <= r
    decreases n
  {
    if n == 0 then out else CopyBack(out + [out[|out| - d]], d, n - 1)
  }

  /** The item refers back no further than to the start of the output. */
  ghost predicate Reaches(out: seq<byte>, item: Item) {
    item.Literal? || (item.lsym < 29 && item.dsym < 30 && 0 < DistBase(item.dsym) + item.dextra <= |out|)
  }

  function Apply(out: seq<byte>, item: Item): (r: seq<byte>)
    requires Reaches(out, item)
    ensures out <= r
  {
    match item
    case Literal(b) => out + [b]
    case Copy(lsym, lextra, dsym, dextra) => CopyBack(out, DistBase(dsym) + dextra, LenBase(lsym) + lextra)
  }

  ghost predicate AllReach(out: seq<byte>, items: seq<Item>)
    decreases |items|
  {
    items == [] || (Reaches(out, items[0]) && AllReach(Apply(out, items[0]), items[1..]))
  }

  /** The output after a block's items. */
  function Expand(out: seq<byte>, items: seq<Item>): (r: seq<byte>)
    requires AllReach(out, items)
    ensures out <= r
    decreases |items|
  {
    if items == [] then out else Expand(Apply(out, items[0]), items[1..])
  }

  // ---------- bit reversal ----------

  const D0: seq<nat> := [0, 128, 64, 192]
  const D1: seq<nat> := [0, 32, 16, 48]
  const D2: seq<nat> := [0, 8, 4, 12]
  const D3: seq<nat> := [0, 2, 1, 3]

  /** Entry `k` of reverseTable, as the macros R2, R4 and R6 lay it out. */
  function ReverseTable(k: nat): nat
    requires k < 256
  {
    D3[k / 64] + D2[k / 16 % 4] + D1[k / 4 % 4] + D0[k % 4]
  }

  lemma {:induction false} MsbValueCons(b: bool, s: seq<bool>)
    ensures MsbValue([b] + s) == (if b then Pow2(|s|) else 0) + MsbValue(s)
  {
    var u := [b] + s;
    if s == [] {
      assert u == [b] && u[..0] == [] && MsbValue(u[..0]) == 0;
    } else {
      var t, x := s[..|s| - 1], s[|s| - 1];
      MsbValueCons(b, t);
      assert u[..|u| - 1] == [b] + t && u[|u| - 1] == x;
    }
  }

  lemma Spread(h: nat, x: nat, p: nat)
    ensures (h + x) * p == h * p + x * p
  {}

  lemma {:induction false} MsbValueConcat(a: seq<bool>, b: seq<bool>)
    ensures MsbValue(a + b) == MsbValue(a) * Pow2(|b|) + MsbValue(b)
    decreases |a|
  {
    if a == [] {
      assert a + b == b;
    } else {
      MsbValueConcat(a[1..], b);
      assert a + b == [a[0]] + (a[1..] + b) && a == [a[0]] + a[1..];
      hide MsbValue, Pow2;
      MsbValueCons(a[0], a[1..] + b);
      MsbValueCons(a[0], a[1..]);
      Pow2Add(|a| - 1, |b|);
      Spread(if a[0] then Pow2(|a| - 1) else 0, MsbValue(a[1..]), Pow2(|b|));
    }
  }

  /** The reversal of the low `n` bits of `v`, one bit at a time. */
  function Reversed(v: nat, n: nat): nat { MsbValue(Lsb(v, n)) }

  lemma ReversedStep(v: nat, n: nat)
    requires n > 0
    ensures Reversed(v, n) == (v % 2) * Pow2(n - 1) + Reversed(v / 2, n - 1)
  {
    MsbValueCons(v % 2 == 1, Lsb(v / 2, n - 1));
  }

  lemma FourSteps(v: nat, n: nat)
    ensures Reversed(v, n + 4)
         == (v % 2) * Pow2(n + 3) + (v / 2 % 2) * Pow2(n + 2) + (v / 4 % 2) * Pow2(n + 1) + (v / 8 % 2) * Pow2(n)
            + Reversed(v / 16, n)
  {
    hide Reversed, Pow2;
    ReversedStep(v, n + 4);
    ReversedStep(v / 2, n + 3);
    assert v / 2 / 2 == v / 4;
    ReversedStep(v / 4, n + 2);
    assert v / 4 / 2 == v / 8;
    ReversedStep(v / 8, n + 1);
    assert v / 8 / 2 == v / 16;
  }

  lemma ReverseTableIsReversal(v: nat)
    requires v < 256
    ensures ReverseTable(v) == Reversed(v, 8)
  {
    FourSteps(v, 4);
    FourSteps(v / 16, 0);
    SmallPowersOfTwo();
    assert Reversed(v / 16 / 16, 0) == 0;
    hide Reversed, Pow2;
    var a, b := v / 16, v % 16;
    DigitPairs(a);
    DigitPairs(b);
    LowDigits(v, a, b);
  }

  lemma LowDigits(v: nat, a: nat, b: nat)
    requires v == 16 * a + b && a < 16 && b < 16
    ensures v / 64 == a / 4 && v / 16 % 4 == a % 4 && v / 4 % 4 == b / 4 && v % 4 == b % 4
    ensures v % 2 == b % 2 && v / 2 % 2 == b / 2 % 2 && v / 4 % 2 == b / 4 % 2 && v / 8 % 2 == b / 8 % 2
  {
    assert v / 2 == 8 * a + b / 2;
    assert v / 4 == 4 * a + b / 4;
    assert v / 8 == 2 * a + b / 8;
  }

  lemma SmallPowersOfTwo()
    ensures Pow2(0) == 1 && Pow2(1) == 2 && Pow2(2) == 4 && Pow2(3) == 8 && Pow2(4) == 16 && Pow2(5) == 32 &&
            Pow2(6) == 64 && Pow2(7) == 128
  {
    assert Pow2(2) == 4 && Pow2(3) == 8;
    assert Pow2(4) == 2 * Pow2(3) && Pow2(5) == 2 * Pow2(4) && Pow2(6) == 2 * Pow2(5) && Pow2(7) == 2 * Pow2(6);
  }

  lemma DigitPairs(b: nat)
    requires b < 16
    ensures D0[b % 4] + D1[b / 4] == (b % 2) * 128 + (b / 2 % 2) * 64 + (b / 4 % 2) * 32 + (b / 8 % 2) * 16
    ensures D2[b % 4] + D3[b / 4] == (b % 2) * 8 + (b / 2 % 2) * 4 + (b / 4 % 2) * 2 + (b / 8 % 2) * 1
  {}

  /** rev16: the first sixteen bits of the look-ahead, as a highest-first number. */
  function Rev16(n: nat): nat { ReverseTable(n % 256) * 256 + ReverseTable(n / 256 % 256) }

  lemma LsbOfMod(v: nat, n: nat)
    ensures Lsb(v % Pow2(n), n) == Lsb(v, n)
  {
    hide Lsb, Pow2;
    var q, r := DivMod(v, Pow2(n));
    LsbIgnoresHigh(r, q, n);
  }

  lemma LsbPrefix(v: nat, a: nat, n: nat)
    requires a <= n
    ensures v / Pow2(a) >= 0
    ensures Lsb(v, n) == Lsb(v, a) + Lsb(v / Pow2(a), n - a)
  {
    hide Lsb, Pow2;
    var q, r := DivMod(v, Pow2(a));
    LsbSplit(r, q, a, n - a);
    LsbOfMod(v, a);
  }

  lemma Rev16IsReversal(v: nat)
    ensures Rev16(v) == Reversed(v, 16)
  {
    BitPowers();
    LsbPrefix(v, 8, 16);
    LsbOfMod(v, 8);
    LsbOfMod(v / 256, 8);
    MsbValueConcat(Lsb(v, 8), Lsb(v / 256, 8));
    ReverseTableIsReversal(v % 256);
    ReverseTableIsReversal(v / 256 % 256);
    hide Lsb, MsbValue, Pow2, ReverseTable;
  }

  lemma BitPowers()
    ensures Pow2(8) == 256 && Pow2(16) == 0x10000
  {
    SmallPowersOfTwo();
    Pow2Of16();
    Pow2Add(4, 4);
  }

  // ---------- the search ----------

  /** The binary search of `decode`: how many keys do not exceed `search`. */
  method Search(tree: array<nat>, max: nat, search: nat) returns (lo: nat)
    requires max <= tree.Length && forall s, t :: 0 <= s < t < max ==> tree[s] < tree[t]
    ensures lo <= max && forall s :: 0 <= s < max ==> (tree[s] <= search <==> s < lo)
  {
    lo := 0;
    var hi := max;
    while lo < hi
      invariant lo <= hi <= max
      invariant forall s :: 0 <= s < lo ==> tree[s] <= search
      invariant forall s :: hi <= s < max ==> search < tree[s]
    {
      var guess := (lo + hi) / 2;
      if search < tree[guess] {
        hi := guess;
      } else {
        lo := guess + 1;
      }
    }
  }

  /** A stream that begins with a symbol's code lies between that symbol's key and the next. */
  lemma CodeBrackets(lens: seq<nat>, sym: nat, ahead: seq<bool>)
    requires Lengths(lens) && HasCode(lens, sym) && KraftOk(lens)
    requires |ahead| == 16 && CodeBits(lens, sym) <= ahead
    ensures Justified(lens, sym) <= MsbValue(ahead) < Justified(lens, sym) + Pow2(16 - lens[sym])
  {
    var l, c, r := lens[sym], CodeOf(lens, sym), MsbValue(ahead);
    var p := Pow2(16 - l);
    MsbValuePrefix(ahead, l);
    assert ahead[..l] == CodeBits(lens, sym);
    CodeFits(lens, sym);
    MsbValueOfMsb(c, l);
    hide MsbValue, Pow2, CodeOf, Msb;
    QuotientBracket(r, p, c);
  }

  /** The look-ahead word, low half filled with ones, against a key. */
  lemma KeyAgainstSearch(j: nat, r: nat, rest: nat)
    requires rest < 0x10000
    ensures j * 0x10000 + rest <= r * 0x10000 + 0xffff <==> j <= r
  {}

  /** The search finds the slot of the symbol the stream begins with. */
  lemma SearchFinds(tree: seq<nat>, lens: seq<nat>, sym: nat, ahead: seq<bool>, lo: nat)
    requires Lengths(lens) && HasCode(lens, sym) && KraftOk(lens) && Tree(tree, lens)
    requires |ahead| == 16 && CodeBits(lens, sym) <= ahead
    requires lo <= Total(lens)
    requires forall s :: 0 <= s < Total(lens) ==> (tree[s] <= MsbValue(ahead) * 0x10000 + 0xffff <==> s < lo)
    ensures lo == SlotOf(lens, sym) + 1
  {
    var at := SlotOf(lens, sym);
    CodeBrackets(lens, sym, ahead);
    SlotInRange(lens, sym);
    hide MsbValue, Pow2, Justified, Total, SlotOf, CodeBits, KraftOk;
    KeyAgainstSearch(Justified(lens, sym), MsbValue(ahead), sym * 16 + lens[sym]);
    assert tree[at] == Key(lens, sym);
    if at + 1 < Total(lens) {
      var next := SymbolOfSlot(lens, at + 1, 15);
      KeysOrdered(lens, sym, next);
      KeyAgainstSearch(Justified(lens, next), MsbValue(ahead), next * 16 + lens[next]);
      assert tree[at + 1] == Key(lens, next);
    }
  }

  /** The check on the found key: its code is what the stream begins with. */
  lemma FoundKeyMatches(lens: seq<nat>, sym: nat, ahead: seq<bool>)
    requires Lengths(lens) && HasCode(lens, sym) && KraftOk(lens)
    requires |ahead| == 16 && CodeBits(lens, sym) <= ahead
    ensures var d := Pow2(32 - lens[sym]);
            (MsbValue(ahead) * 0x10000 + 0xffff) / d == Key(lens, sym) / d
  {
    var l, c, r := lens[sym], CodeOf(lens, sym), MsbValue(ahead);
    var p := Pow2(16 - l);
    CodeBrackets(lens, sym, ahead);
    Pow2Add(16 - l, 16);
    Pow2Of16();
    hide MsbValue, CodeOf, Pow2;
    TopBits(c, p, Justified(lens, sym), r, sym * 16 + l);
  }

  lemma TopBits(c: nat, p: nat, j: nat, r: nat, rest: nat)
    requires p > 0 && j == c * p && j <= r < j + p && rest < 0x10000
    ensures (r * 0x10000 + 0xffff) / (p * 0x10000) == c == (j * 0x10000 + rest) / (p * 0x10000)
  {
    assert (p * 0x10000) * c == j * 0x10000;
    ModUnique(j * 0x10000 + rest, p * 0x10000, c, rest);
    ModUnique(r * 0x10000 + 0xffff, p * 0x10000, c, (r - j) * 0x10000 + 0xffff);
  }

  lemma KeyParts(lens: seq<nat>, sym: nat)
    requires Lengths(lens) && sym < |lens|
    ensures Key(lens, sym) % 16 == lens[sym] && Key(lens, sym) / 16 % 0x1000 == sym
  {
    var j := Justified(lens, sym);
    hide Justified;
    ModUnique(Key(lens, sym), 16, j * 0x1000 + sym, lens[sym]);
    ModUnique(j * 0x1000 + sym, 0x1000, j, sym);
  }
}
