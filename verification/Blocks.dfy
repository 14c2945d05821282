/** The three kinds of DEFLATE block, as bit strings and as the bytes they stand for. */
module Blocks {
  import opened Bits
  import opened Huffman
  import opened Symbols

  // ---------- the fixed codes ----------

  function FixedLength(n: nat): nat {
    if n <= 143 then 8 else if n <= 255 then 9 else if n <= 279 then 7 else 8
  }

  function FixedLit(): (lens: seq<nat>)
    ensures |lens| == 288 && forall n :: 0 <= n < 288 ==> lens[n] == FixedLength(n)
  {
    seq(288, (n: nat) => FixedLength(n))
  }

  function FixedDist(): (lens: seq<nat>)
    ensures |lens| == 32 && forall n :: 0 <= n < 32 ==> lens[n] == 5
  {
    seq(32, _ => 5)
  }

  /** Among the first `n` symbols of the fixed code, how many have length 7, 8 and 9. */
  lemma {:induction false} FixedCounts(n: nat)
    requires n <= 288
    ensures Count(FixedLit(), 7, n) == if n <= 256 then 0 else if n <= 280 then n - 256 else 24
    ensures Count(FixedLit(), 8, n) == if n <= 144 then n else if n <= 280 then 144 else n - 136
    ensures Count(FixedLit(), 9, n) == if n <= 144 then 0 else if n <= 256 then n - 144 else 112
    ensures forall l :: 0 <= l < 7 ==> Count(FixedLit(), l, n) == 0
  {
    if n != 0 { FixedCounts(n - 1); }
  }

  lemma {:induction false} FixedDistCounts(n: nat, l: nat)
    requires n <= 32
    ensures Count(FixedDist(), l, n) == if l == 5 then n else 0
  {
    if n != 0 { FixedDistCounts(n - 1, l); }
  }

  lemma {:induction false} NoShortCodes(lens: seq<nat>, l: nat)
    requires forall k: nat :: k < l ==> Used(lens, k) == 0
    ensures FirstCode(lens, l) == 0
  {
    if l != 0 { NoShortCodes(lens, l - 1); }
  }

  lemma FixedFirstCodes()
    ensures FirstCode(FixedLit(), 7) == 0 && FirstCode(FixedLit(), 8) == 0x30 && FirstCode(FixedLit(), 9) == 0x190
    ensures FirstCode(FixedDist(), 5) == 0
  {
    var lit := FixedLit();
    FixedCounts(288);
    NoShortCodes(lit, 7);
    hide FixedLit, Count;
    assert FirstCode(lit, 8) == 2 * (FirstCode(lit, 7) + Used(lit, 7));
    assert FirstCode(lit, 9) == 2 * (FirstCode(lit, 8) + Used(lit, 8));
    forall k: nat | k < 5
      ensures Used(FixedDist(), k) == 0
    {
      FixedDistCounts(32, k);
    }
    NoShortCodes(FixedDist(), 5);
  }

  lemma {:induction false} KraftSame(lens: seq<nat>, n: nat, l: nat)
    requires n <= |lens| && 0 < l <= 15 && forall i :: 0 <= i < n ==> lens[i] == l
    ensures Kraft(lens, n, 15) == n * Pow2(15 - l)
  {
    if n != 0 {
      KraftSame(lens, n - 1, l);
      Next(n, Pow2(15 - l));
    }
  }

  lemma Next(n: nat, p: nat)
    requires n > 0
    ensures (n - 1) * p + p == n * p
  {}

  lemma {:induction false} FixedKraft(n: nat)
    requires n <= 288
    ensures Kraft(FixedLit(), n, 15)
         == if n <= 144 then n * 128 else if n <= 256 then 18432 + (n - 144) * 64
            else if n <= 280 then 25600 + (n - 256) * 256 else 31744 + (n - 280) * 128
  {
    if n != 0 {
      FixedKraft(n - 1);
      SmallPowersOfTwo();
      assert Pow2(8) == 2 * Pow2(7);
    }
  }

  lemma FixedCodesOk()
    ensures Lengths(FixedLit()) && KraftOk(FixedLit()) && Lengths(FixedDist()) && KraftOk(FixedDist())
  {
    LitLengths();
    DistLengths();
    hide *;
  }

  lemma LitLengths()
    ensures Lengths(FixedLit()) && KraftOk(FixedLit())
  {
    FixedKraft(288);
    FifteenBits();
    hide Pow2, Kraft;
  }

  lemma DistLengths()
    ensures Lengths(FixedDist()) && KraftOk(FixedDist())
  {
    KraftSame(FixedDist(), 32, 5);
    FifteenBits();
    hide Pow2, Kraft;
  }

  lemma FifteenBits()
    ensures Pow2(15) == 32768 && Pow2(10) == 1024
  {
    SmallPowersOfTwo();
    Pow2Add(5, 5);
    Pow2Add(10, 5);
    hide Pow2;
  }

  // ---------- the code-length code of a dynamic block ----------

  const ORDER: seq<nat> := [16, 17, 18, 0, 8, 7, 9, 6, 10, 5, 11, 4, 12, 3, 13, 2, 14, 1, 15]

  /** A code length, a repetition of the last one, or a run of zeros, with its extra bits. */
  datatype LenItem = One(l: nat) | Again(extra: nat) | Zeros(extra: nat) | ManyZeros(extra: nat)

  function LenSymbol(it: LenItem): nat {
    match it
    case One(l) => l
    case Again(_) => 16
    case Zeros(_) => 17
    case ManyZeros(_) => 18
  }

  function ExtraBits(it: LenItem): nat {
    match it
    case One(_) => 0
    case Again(_) => 2
    case Zeros(_) => 3
    case ManyZeros(_) => 7
  }

  function ExtraOf(it: LenItem): nat {
    match it
    case One(_) => 0
    case Again(e) => e
    case Zeros(e) => e
    case ManyZeros(e) => e
  }

  ghost predicate LenItemOk(it: LenItem, lenlens: seq<nat>) {
    && (it.One? ==> it.l <= 15)
    && HasCode(lenlens, LenSymbol(it))
    && ExtraOf(it) < Pow2(ExtraBits(it))
  }

  function LenItemCode(it: LenItem, lenlens: seq<nat>): seq<bool>
    requires LenItemOk(it, lenlens)
  {
    CodeBits(lenlens, LenSymbol(it)) + Lsb(ExtraOf(it), ExtraBits(it))
  }

  ghost predicate LenItemsOk(items: seq<LenItem>, lenlens: seq<nat>) {
    forall i :: 0 <= i < |items| ==> LenItemOk(items[i], lenlens)
  }

  function LenItemsCode(items: seq<LenItem>, lenlens: seq<nat>): seq<bool>
    requires LenItemsOk(items, lenlens)
  {
    if items == [] then [] else LenItemCode(items[0], lenlens) + LenItemsCode(items[1..], lenlens)
  }

  function Times(l: nat, k: nat): (s: seq<nat>)
    ensures |s| == k
  {
    seq(k, _ => l)
  }

  /** The code lengths after one more item. */
  function AddLengths(lens: seq<nat>, it: LenItem): seq<nat> {
    match it
    case One(l) => lens + [l]
    case Again(e) => lens + Times(if |lens| > 0 then lens[|lens| - 1] else 0, 3 + e)
    case Zeros(e) => lens + Times(0, 3 + e)
    case ManyZeros(e) => lens + Times(0, 11 + e)
  }

  function AllLengths(lens: seq<nat>, items: seq<LenItem>): seq<nat>
    decreases |items|
  {
    if items == [] then lens else AllLengths(AddLengths(lens, items[0]), items[1..])
  }

  /** The order of the code-length lengths: the three runs, the unused length, then outward from 8. */
  lemma OrderIsOutward(i: nat)
    requires i < 19
    ensures ORDER[i] == if i < 3 then 16 + i else if i == 3 then 0 else if i % 2 == 0 then 6 + i / 2
                        else 8 - (i - 3) / 2
  {}

  /** How many code lengths a symbol with its extra bits stands for. */
  ghost predicate RunOf(it: LenItem, n: nat) {
    ExtraOf(it) < Pow2(ExtraBits(it)) && forall lens: seq<nat> :: |AddLengths(lens, it)| == |lens| + n
  }

  /** A repetition is of 3 to 6 lengths, the runs of zeros are of 3 to 10 and of 11 to 138. */
  lemma RunLengths(n: nat)
    ensures (exists e :: RunOf(Again(e), n)) <==> 3 <= n <= 6
    ensures (exists e :: RunOf(Zeros(e), n)) <==> 3 <= n <= 10
    ensures (exists e :: RunOf(ManyZeros(e), n)) <==> 11 <= n <= 138
  {
    SmallPowersOfTwo();
    hide Pow2;
    forall e: nat | RunOf(Again(e), n) ensures 3 <= n <= 6 { assert |AddLengths([], Again(e))| == 3 + e; }
    forall e: nat | RunOf(Zeros(e), n) ensures 3 <= n <= 10 { assert |AddLengths([], Zeros(e))| == 3 + e; }
    forall e: nat | RunOf(ManyZeros(e), n) ensures 11 <= n <= 138 { assert |AddLengths([], ManyZeros(e))| == 11 + e; }
    if 3 <= n <= 6 { assert RunOf(Again(n - 3), n); }
    if 3 <= n <= 10 { assert RunOf(Zeros(n - 3), n); }
    if 11 <= n <= 138 { assert RunOf(ManyZeros(n - 11), n); }
  }

  /** What is added: the last length again, or zeros. */
  lemma RunValues(lens: seq<nat>, it: LenItem, k: nat)
    requires |lens| <= k < |AddLengths(lens, it)|
    ensures lens <= AddLengths(lens, it)
    ensures AddLengths(lens, it)[k] == match it
                                       case One(l) => l
                                       case Again(_) => if lens == [] then 0 else lens[|lens| - 1]
                                       case Zeros(_) => 0
                                       case ManyZeros(_) => 0
  {}

  /** Repetition never comes first. */
  ghost predicate StartsPlain(items: seq<LenItem>) { items != [] && !items[0].Again? }

  lemma {:induction false} LengthsGrow(lens: seq<nat>, items: seq<LenItem>)
    ensures lens <= AllLengths(lens, items)
    ensures items != [] ==> |lens| < |AllLengths(lens, items)|
    decreases |items|
  {
    if items != [] { LengthsGrow(AddLengths(lens, items[0]), items[1..]); }
  }

  /** The header of a dynamic block. */
  datatype Header = Header(nlit: nat, ndist: nat, nlen: nat, lenlens: seq<nat>, items: seq<LenItem>) {
    function Lens(): seq<nat> { AllLengths([], items) }

    function Lit(): seq<nat> { if nlit <= |Lens()| then Lens()[..nlit] else [] }

    function Dist(): seq<nat> { if nlit <= |Lens()| then Lens()[nlit..] else [] }
  }

  ghost predicate HeaderOk(h: Header) {
    && 257 <= h.nlit <= 288 && 1 <= h.ndist <= 32 && 4 <= h.nlen <= 19
    && |h.lenlens| == 19
    && (forall i :: 0 <= i < h.nlen ==> h.lenlens[ORDER[i]] < 8)
    && (forall i :: h.nlen <= i < 19 ==> h.lenlens[ORDER[i]] == 0)
    && Lengths(h.lenlens) && KraftOk(h.lenlens)
    && LenItemsOk(h.items, h.lenlens) && StartsPlain(h.items)
    && |h.Lens()| == h.nlit + h.ndist
    && Lengths(h.Lit()) && KraftOk(h.Lit()) && Lengths(h.Dist()) && KraftOk(h.Dist())
  }

  /** The code lengths of the code-length code, three bits each, in their peculiar order. */
  function OrderCode(lenlens: seq<nat>, i: nat, n: nat): seq<bool>
    requires |lenlens| == 19 && i <= n <= 19
    decreases n - i
  {
    if i == n then [] else Lsb(lenlens[ORDER[i]], 3) + OrderCode(lenlens, i + 1, n)
  }

  function HeaderCode(h: Header): seq<bool>
    requires HeaderOk(h)
  {
    Lsb(h.nlit - 257, 5) + (Lsb(h.ndist - 1, 5) + (Lsb(h.nlen - 4, 4)
                                                   + (OrderCode(h.lenlens, 0, h.nlen)
                                                      + LenItemsCode(h.items, h.lenlens))))
  }

  // ---------- whole streams ----------

  /** A block; a stored one also carries the bits skipped to reach a byte boundary. */
  datatype BlockDesc =
    | StoredBlock(pad: seq<bool>, data: seq<byte>)
    | FixedBlock(items: seq<Item>)
    | DynamicBlock(h: Header, items: seq<Item>)

  ghost predicate CompressedOk(items: seq<Item>, lit: seq<nat>, dist: seq<nat>, out: seq<byte>) {
    ItemsOk(items, lit, dist) && HasCode(lit, 256) && AllReach(out, items)
  }

  ghost predicate BlockOk(b: BlockDesc, out: seq<byte>) {
    match b
    case StoredBlock(pad, data) => |data| < 0x10000
    case FixedBlock(items) => CompressedOk(items, FixedLit(), FixedDist(), out)
    case DynamicBlock(h, items) => HeaderOk(h) && CompressedOk(items, h.Lit(), h.Dist(), out)
  }

  function CompressedCode(items: seq<Item>, lit: seq<nat>, dist: seq<nat>): seq<bool>
    requires ItemsOk(items, lit, dist) && HasCode(lit, 256)
  {
    ItemsCode(items, lit, dist) + CodeBits(lit, 256)
  }

  /** Padding, the length, its complement, and the bytes. */
  function StoredCode(pad: seq<bool>, data: seq<byte>): seq<bool>
    requires |data| < 0x10000
  {
    pad + (Lsb(|data|, 16) + (Lsb(0xffff - |data|, 16) + BitsOf(data)))
  }

  function BlockBody(b: BlockDesc, out: seq<byte>): seq<bool>
    requires BlockOk(b, out)
  {
    match b
    case StoredBlock(pad, data) => StoredCode(pad, data)
    case FixedBlock(items) => CompressedCode(items, FixedLit(), FixedDist())
    case DynamicBlock(h, items) => HeaderCode(h) + CompressedCode(items, h.Lit(), h.Dist())
  }

  function Kind(b: BlockDesc): nat {
    match b
    case StoredBlock(_, _) => 0
    case FixedBlock(_) => 1
    case DynamicBlock(_, _) => 2
  }

  function BlockCode(b: BlockDesc, last: bool, out: seq<byte>): seq<bool>
    requires BlockOk(b, out)
  {
    [last] + (Lsb(Kind(b), 2) + BlockBody(b, out))
  }

  function AfterBlock(b: BlockDesc, out: seq<byte>): (r: seq<byte>)
    requires BlockOk(b, out)
    ensures out <= r
  {
    match b
    case StoredBlock(pad, data) => out + data
    case FixedBlock(items) => Expand(out, items)
    case DynamicBlock(h, items) => Expand(out, items)
  }

  /** With `total` bits left at its start, a stored block's padding ends on a byte boundary. */
  ghost predicate PadOk(b: BlockDesc, total: int) {
    b.StoredBlock? ==> total >= 3 && |b.pad| == (total - 3) % 8
  }

  /** `rest` begins with the blocks, the last one marked, and goes on with `tail`. */
  ghost predicate StreamOk(rest: seq<bool>, out: seq<byte>, blocks: seq<BlockDesc>, tail: seq<bool>)
    decreases |blocks|
  {
    && blocks != []
    && BlockOk(blocks[0], out) && PadOk(blocks[0], |rest|)
    && var code := BlockCode(blocks[0], |blocks| == 1, out);
       && code <= rest
       && if |blocks| == 1 then rest[|code|..] == tail
          else StreamOk(rest[|code|..], AfterBlock(blocks[0], out), blocks[1..], tail)
  }

  /** The bytes the stream stands for. */
  function StreamBytes(out: seq<byte>, blocks: seq<BlockDesc>, rest: seq<bool>, tail: seq<bool>): (r: seq<byte>)
    requires StreamOk(rest, out, blocks, tail)
    ensures out <= r
    decreases |blocks|
  {
    var after := AfterBlock(blocks[0], out);
    if |blocks| == 1 then after
    else StreamBytes(after, blocks[1..], rest[|BlockCode(blocks[0], false, out)|..], tail)
  }
}
