/** The inflater: look-ahead bit reader, table building, symbol decoding, copies and blocks. */
module Inflate {
  import opened Bits
  import opened Huffman
  import opened Symbols
  import opened Blocks

  // ---------- build ----------

  /** The frequency count of `build`. */
  method CountLengths(lens: seq<nat>) returns (counts: array<nat>)
    requires Lengths(lens)
    ensures fresh(counts) && counts.Length == 16
    ensures forall l :: 0 <= l < 16 ==> counts[l] == Count(lens, l, |lens|)
  {
    hide Count;
    counts := new nat[16](_ => 0);
    NoneCounted(lens);
    for n := 0 to |lens|
      invariant forall l :: 0 <= l < 16 ==> counts[l] == Count(lens, l, n)
    {
      CountStep(lens, n);
      counts[lens[n]] := counts[lens[n]] + 1;
    }
  }

  /** First codes and first slots by length. */
  method Distribute(lens: seq<nat>, counts: array<nat>) returns (codes: array<nat>, first: array<nat>)
    requires counts.Length == 16 && forall l :: 0 <= l < 16 ==> counts[l] == Count(lens, l, |lens|)
    modifies counts
    ensures fresh(codes) && fresh(first) && codes != first && codes.Length == first.Length == 16
    ensures forall l :: 0 <= l < 16 ==> counts[l] == Used(lens, l)
    ensures forall l :: 0 <= l < 16 ==> codes[l] == FirstCode(lens, l) && first[l] == FirstSlot(lens, l)
  {
    hide Count, FirstCode, FirstSlot;
    codes, first := new nat[16], new nat[16];
    counts[0], codes[0], first[0] := 0, 0, 0;
    FirstsStart(lens);
    for n := 1 to 16
      invariant forall l :: 0 <= l < 16 ==> counts[l] == Used(lens, l)
      invariant forall l :: 0 <= l < n ==> codes[l] == FirstCode(lens, l) && first[l] == FirstSlot(lens, l)
    {
      FirstsStep(lens, n);
      codes[n] := (codes[n - 1] + counts[n - 1]) * 2;
      first[n] := first[n - 1] + counts[n - 1];
    }
  }

  /** The keys of the symbols below `upto` are in their slots. */
  ghost predicate Inserted(tree: seq<nat>, lens: seq<nat>, upto: nat) {
    forall m: nat :: m < upto && HasCode(lens, m) ==> SlotOf(lens, m) < |tree| && tree[SlotOf(lens, m)] == Key(lens, m)
  }

  lemma InsertKey(tree: seq<nat>, lens: seq<nat>, n: nat)
    requires Lengths(lens) && HasCode(lens, n) && |lens| <= |tree| && Inserted(tree, lens, n)
    ensures SlotOf(lens, n) < |tree| && Inserted(tree[SlotOf(lens, n) := Key(lens, n)], lens, n + 1)
  {
    hide SlotOf, Key, Total, FirstSlot;
    SlotInRange(lens, n);
    forall m: nat | m < n && HasCode(lens, m)
      ensures SlotOf(lens, m) != SlotOf(lens, n)
    {
      SlotInjective(lens, m, n);
    }
  }

  /** The code and the slot that come next for every length, before symbol `n`. */
  ghost predicate NextCodes(codes: array<nat>, first: array<nat>, lens: seq<nat>, n: nat)
    requires n <= |lens|
    reads codes, first
  {
    && codes.Length == first.Length == 16
    && (forall l :: 0 < l < 16 ==> codes[l] == FirstCode(lens, l) + Count(lens, l, n))
    && forall l :: 0 < l < 16 ==> first[l] == FirstSlot(lens, l) + Count(lens, l, n)
  }

  /** One turn of the last loop of `build`. */
  method InsertSymbol(tree: array<nat>, lens: seq<nat>, n: nat, codes: array<nat>, first: array<nat>)
    requires Lengths(lens) && KraftOk(lens) && |lens| <= tree.Length && n < |lens|
    requires tree != codes && tree != first && codes != first
    requires NextCodes(codes, first, lens, n) && Inserted(tree[..], lens, n)
    modifies tree, codes, first
    ensures NextCodes(codes, first, lens, n + 1) && Inserted(tree[..], lens, n + 1)
  {
    hide Count, FirstCode, FirstSlot, Pow2, Key, KraftOk, Inserted, Total;
    CountStep(lens, n);
    var len := lens[n];
    if len != 0 {
      var code, slot := codes[len], first[len];
      codes[len], first[len] := codes[len] + 1, first[len] + 1;
      KeyAsStored(lens, n);
      InsertKey(tree[..], lens, n);
      ghost var was := tree[..];
      tree[slot] := (code * Pow2(32 - len)) % 0x1_0000_0000 + n * 16 + len;
      assert tree[..] == was[slot := Key(lens, n)];
    } else {
      NothingToInsert(tree[..], lens, n);
    }
  }

  /** build: distributes canonical codes and stores every symbol's key in its slot. */
  method Build(tree: array<nat>, lens: seq<nat>) returns (max: nat)
    requires Lengths(lens) && KraftOk(lens) && |lens| <= tree.Length
    modifies tree
    ensures max == Total(lens) && Tree(tree[..], lens)
  {
    hide Count, FirstCode, FirstSlot, Pow2, Key, KraftOk, Inserted;
    var counts := CountLengths(lens);
    var codes, first := Distribute(lens, counts);
    SlotsBelowCount(lens, 15);
    assert first[15] + counts[15] <= |lens|; // the check after the loop never fails
    NoneCounted(lens);
    NoneInserted(tree[..], lens);
    for n := 0 to |lens|
      invariant NextCodes(codes, first, lens, n) && Inserted(tree[..], lens, n)
    {
      InsertSymbol(tree, lens, n, codes, first);
    }
    max := first[15];
    AllInserted(tree[..], lens);
  }

  lemma NoneInserted(tree: seq<nat>, lens: seq<nat>)
    ensures Inserted(tree, lens, 0)
  {}

  lemma NothingToInsert(tree: seq<nat>, lens: seq<nat>, n: nat)
    requires !HasCode(lens, n) && Inserted(tree, lens, n)
    ensures Inserted(tree, lens, n + 1)
  {}

  lemma AllInserted(tree: seq<nat>, lens: seq<nat>)
    requires Lengths(lens) && |lens| <= |tree| && Inserted(tree, lens, |lens|)
    ensures Tree(tree, lens)
  {
    hide SlotOf, Key, FirstSlot, Count;
    SlotsBelowCount(lens, 15);
  }

  lemma NoneCounted(lens: seq<nat>)
    ensures forall l :: 0 <= l < 16 ==> Count(lens, l, 0) == 0
  {}

  lemma CountStep(lens: seq<nat>, n: nat)
    requires n < |lens|
    ensures forall l :: 0 <= l ==> Count(lens, l, n + 1) == Count(lens, l, n) + if lens[n] == l then 1 else 0
  {}

  lemma FirstsStart(lens: seq<nat>)
    ensures FirstCode(lens, 0) == 0 && FirstSlot(lens, 0) == 0
  {}

  lemma FirstsStep(lens: seq<nat>, n: nat)
    requires n > 0
    ensures FirstCode(lens, n) == 2 * (FirstCode(lens, n - 1) + Used(lens, n - 1))
    ensures FirstSlot(lens, n) == FirstSlot(lens, n - 1) + Used(lens, n - 1)
  {}

  /** The shifted code, the symbol and the length do not overlap, and nothing is shifted out. */
  lemma KeyAsStored(lens: seq<nat>, n: nat)
    requires Lengths(lens) && KraftOk(lens) && HasCode(lens, n)
    ensures (CodeOf(lens, n) * Pow2(32 - lens[n])) % 0x1_0000_0000 + n * 16 + lens[n] == Key(lens, n)
  {
    var c, l := CodeOf(lens, n), lens[n];
    JustifiedFits(lens, n);
    Pow2Add(16 - l, 16);
    Pow2Of16();
    hide Pow2, CodeOf;
    Reassociate(c, Pow2(16 - l));
  }

  lemma Reassociate(c: nat, p: nat)
    ensures c * (p * 0x10000) == (c * p) * 0x10000
  {}

  // ---------- the state ----------

  class State {
    var bits: nat
    var count: nat
    var pos: nat
    var outpos: nat
    var tlit: nat
    var tdist: nat
    var tlen: nat
    const input: seq<byte>
    const inend: nat
    const out: array<byte>
    const outbase: nat
    const outend: nat
    const litcodes: array<nat>
    const distcodes: array<nat>
    const lencodes: array<nat>

    /** tigrInflate's set-up: `input[start..]` is read, up to two bytes past `inlen` of them. */
    constructor (out: array<byte>, outbase: nat, outlen: nat, input: seq<byte>, start: nat, inlen: nat)
      requires outbase + outlen <= out.Length && start + inlen + 2 <= |input|
      ensures Sound() && count == 0 && fresh(litcodes) && fresh(distcodes) && fresh(lencodes)
      ensures this.out == out && this.outbase == outbase == outpos && outend == outbase + outlen
      ensures this.input == input && pos == start && inend == start + inlen + 2
      ensures Rest() == BitsOf(input[start..start + inlen + 2]) && Produced() == []
    {
      this.out, this.outbase, this.outpos, this.outend := out, outbase, outbase, outbase + outlen;
      this.input, this.pos, this.inend := input, start, start + inlen + 2;
      bits, count, tlit, tdist, tlen := 0, 0, 0, 0, 0;
      litcodes, distcodes, lencodes := new nat[288], new nat[32], new nat[19];
    }

    /** The look-ahead and the read position. */
    ghost predicate InputSound()
      reads this`bits, this`count, this`pos
    {
      bits < Pow2(count) && count < 24 && pos <= inend <= |input|
    }

    /** The write position. */
    ghost predicate OutputSound()
      reads this`outpos
    {
      outbase <= outpos <= outend <= out.Length
    }

    ghost predicate Sound()
      reads this`bits, this`count, this`pos, this`outpos
    {
      && InputSound() && OutputSound()
      && litcodes.Length == 288 && distcodes.Length == 32 && lencodes.Length == 19
      && litcodes != distcodes && litcodes != lencodes && distcodes != lencodes
    }

    /** After every read, at least sixteen bits lie ready. */
    ghost predicate Ready()
      reads this`bits, this`count, this`pos, this`outpos
    {
      Sound() && count >= 16
    }

    /** The bits not read yet, up to the end of the input. */
    ghost function Rest(): seq<bool>
      requires InputSound()
      reads this`bits, this`count, this`pos
    {
      Lsb(bits, count) + BitsOf(input[pos..inend])
    }

    /** The bytes written so far. */
    ghost function Produced(): seq<byte>
      requires OutputSound()
      reads this`outpos, out
    {
      out[outbase..outpos]
    }

    /** bits: takes `n` bits and refills the look-ahead, which fails where the input ends. */
    method Bits(n: nat) returns (ok: bool, v: nat)
      requires Sound() && n <= count
      modifies this`bits, this`count, this`pos
      ensures Sound() && v == Value(old(Rest())[..n]) && v < Pow2(n)
      ensures ok <==> |old(Rest())| - n >= 16
      ensures ok ==> Ready()
      ensures Rest() == old(Rest())[n..]
    {
      hide Lsb, BitsOf, Pow2, Value;
      ghost var rest := Rest();
      LsbDrop(bits, count, n);
      ValueOfLsb(bits % Pow2(n), n);
      v := bits % Pow2(n);
      bits := bits / Pow2(n);
      count := count - n;
      assert rest[..n] == Lsb(v, n) && Rest() == rest[n..];
      while count < 16
        invariant Sound() && Rest() == rest[n..]
        decreases 16 - count
      {
        if pos == inend {
          return false, v;
        }
        Refill();
      }
      ok := true;
    }

    /** `tree` and `max` were built for `lens`. */
    ghost predicate Built(tree: array<nat>, max: nat, lens: seq<nat>)
      reads tree
    {
      Lengths(lens) && KraftOk(lens) && max == Total(lens) && Tree(tree[..], lens)
    }

    /** What the look-ahead word shows of a code that comes next. */
    lemma LookAheadShows(lens: seq<nat>, n: nat, tail: seq<bool>)
      requires Ready() && HasCode(lens, n) && lens[n] <= 16
      requires Rest() == CodeBits(lens, n) + tail && |tail| >= 16
      ensures |Rest()| >= 16 && CodeBits(lens, n) <= Rest()[..16]
      ensures MsbValue(Rest()[..16]) == Rev16(bits)
    {
      CodeBitsSize(lens, n);
      LookAhead(bits, count, input[pos..inend]);
      Rev16IsReversal(bits);
      CodeAhead(CodeBits(lens, n), tail, 16);
      hide CodeBits, Lsb, MsbValue, BitsOf, Pow2, Rev16;
    }

    lemma BuiltParts(tree: array<nat>, max: nat, lens: seq<nat>)
      requires Built(tree, max, lens)
      ensures Lengths(lens) && KraftOk(lens) && max == Total(lens) <= tree.Length && Tree(tree[..], lens)
    {
      hide Total, KraftOk;
    }

    /** search in a table that is built: it is sorted. */
    method SearchBuilt(tree: array<nat>, max: nat, search: nat, ghost lens: seq<nat>) returns (lo: nat)
      requires Built(tree, max, lens)
      ensures lo <= Total(lens) <= tree.Length
      ensures forall s :: 0 <= s < Total(lens) ==> (tree[s] <= search <==> s < lo)
    {
      BuiltParts(tree, max, lens);
      TreeIsSorted(tree[..], lens);
      hide Total, KraftOk, Tree;
      lo := Search(tree, max, search);
    }

    lemma KeyInSlot(keys: seq<nat>, lens: seq<nat>, n: nat)
      requires Lengths(lens) && HasCode(lens, n) && Tree(keys, lens)
      ensures SlotOf(lens, n) < |keys| && keys[SlotOf(lens, n)] == Key(lens, n) && lens[n] <= 15
    {
      SlotInRange(lens, n);
      hide SlotOf, Key, Total;
    }

    /** The search of decode: the key whose code comes next. */
    method FindKey(tree: array<nat>, max: nat, ghost lens: seq<nat>, ghost expected: nat, ghost tail: seq<bool>)
      returns (ok: bool, key: nat)
      requires Ready() && Built(tree, max, lens) && HasCode(lens, expected)
      requires Rest() == CodeBits(lens, expected) + tail && |tail| >= 16
      ensures ok && key % 16 == lens[expected] <= 15 && key / 16 % 0x1000 == expected
    {
      hide *;
      BuiltParts(tree, max, lens);
      KeyInSlot(tree[..], lens, expected);
      ReadyParts();
      LookAheadShows(lens, expected, tail);
      ghost var ahead := Rest()[..16];
      ghost var keys := tree[..];
      var search := Rev16(bits) * 0x10000 + 0xffff;
      var lo := SearchBuilt(tree, max, search, lens);
      assert search == MsbValue(ahead) * 0x10000 + 0xffff;
      assert forall s :: 0 <= s < Total(lens) ==> (keys[s] <= search <==> s < lo);
      SearchFinds(keys, lens, expected, ahead, lo);
      key := tree[lo - 1];
      KeyIsRight(lens, expected, ahead, search, key);
      ok := search / Pow2(32 - key % 16) == key / Pow2(32 - key % 16);
    }

    /** The test of decode and what it returns, for the key of the code that comes next. */
    lemma KeyIsRight(lens: seq<nat>, n: nat, ahead: seq<bool>, search: nat, key: nat)
      requires Lengths(lens) && HasCode(lens, n) && KraftOk(lens) && |ahead| == 16 && CodeBits(lens, n) <= ahead
      requires search == MsbValue(ahead) * 0x10000 + 0xffff && key == Key(lens, n)
      ensures key % 16 == lens[n] <= 15 && key / 16 % 0x1000 == n && Pow2(32 - key % 16) > 0
      ensures search / Pow2(32 - key % 16) == key / Pow2(32 - key % 16)
    {
      KeyParts(lens, n);
      FoundKeyMatches(lens, n, ahead);
      hide Pow2, Key, MsbValue, KraftOk, CodeBits;
    }

    /** decode: the symbol whose code comes next. */
    method Decode(tree: array<nat>, max: nat, ghost lens: seq<nat>, ghost expected: nat, ghost tail: seq<bool>)
      returns (ok: bool, sym: nat)
      requires Ready() && Built(tree, max, lens) && HasCode(lens, expected)
      requires Rest() == CodeBits(lens, expected) + tail && |tail| >= 16
      modifies this`bits, this`count, this`pos
      ensures ok && sym == expected && Ready() && Rest() == tail
    {
      CodeBitsSize(lens, expected);
      CodeAhead(CodeBits(lens, expected), tail, lens[expected]);
      hide Lsb, BitsOf, Pow2, Built, CodeBits, HasCode, Value;
      var key, v;
      ok, key := FindKey(tree, max, lens, expected, tail);
      sym := key / 16 % 0x1000;
      if !ok {
        return;
      }
      ok, v := Bits(key % 16);
    }

    /** emit of one byte, with its check. */
    method EmitByte(b: byte) returns (ok: bool)
      requires Sound()
      modifies this`outpos, out
      ensures ok <==> old(outpos) + 1 <= outend
      ensures Sound() && (ok ==> Produced() == old(Produced()) + [b])
      ensures Untouched(old(out[..]), old(outpos))
    {
      if outpos + 1 > outend {
        return false;
      }
      out[outpos] := b;
      outpos := outpos + 1;
      ok := true;
    }

    /** Only what was written since `from` was the write position differs from `was`. */
    ghost predicate Untouched(was: seq<byte>, from: nat)
      reads this`outpos, out
    {
      outbase <= from <= outpos && SameOutside(was, out[..], from, outpos)
    }

    lemma UntouchedSince(was: seq<byte>, from: nat, before: seq<byte>, at: nat)
      requires outbase <= from && SameOutside(was, before, from, at) && Untouched(before, at)
      ensures Untouched(was, from)
    {
      OutsideKept(was, before, out[..], from, at, outpos);
    }

    /** What was produced fits. */
    lemma Fits(goal: seq<byte>)
      requires Sound() && Produced() == goal
      ensures outbase + |goal| <= outend
    {}

    /** copy, out of what was already produced. */
    method CopyWithin(offs: nat, length: nat) returns (ok: bool)
      requires Sound() && 0 < offs <= outpos - outbase
      modifies this`outpos, out
      ensures ok <==> old(outpos) + length <= outend
      ensures Sound() && (ok ==> Produced() == CopyBack(old(Produced()), offs, length))
      ensures Untouched(old(out[..]), old(outpos))
    {
      if outpos + length > outend {
        return false;
      }
      ghost var start := Produced();
      OutsideSame(out[..], outpos);
      hide CopyBack, SameOutside;
      NothingCopied(start, offs);
      for i := 0 to length
        invariant Sound() && outpos == old(outpos) + i && Untouched(old(out[..]), old(outpos))
        invariant Produced() == CopyBack(start, offs, i)
      {
        CopyBackStep(start, offs, i);
        var b := out[outpos - offs];
        assert Produced()[|Produced()| - offs] == b;
        ghost var before, at := out[..], outpos;
        var fits := EmitByte(b);
        OutsideKept(old(out[..]), before, out[..], old(outpos), at, outpos);
      }
      ok := true;
    }

    /** copy, out of the compressed input. */
    method CopyInput(length: nat) returns (ok: bool)
      requires Sound() && pos + length <= inend
      modifies this`outpos, out
      ensures ok <==> old(outpos) + length <= outend
      ensures Sound() && (ok ==> Produced() == old(Produced()) + input[pos..pos + length])
      ensures Untouched(old(out[..]), old(outpos))
    {
      if outpos + length > outend {
        return false;
      }
      ghost var start := Produced();
      OutsideSame(out[..], outpos);
      hide SameOutside;
      for i := 0 to length
        invariant Sound() && outpos == old(outpos) + i && Untouched(old(out[..]), old(outpos))
        invariant Produced() == start + input[pos..pos + i]
      {
        assert input[pos..pos + i + 1] == input[pos..pos + i] + [input[pos + i]];
        ghost var before, at := out[..], outpos;
        var fits := EmitByte(input[pos + i]);
        OutsideKept(old(out[..]), before, out[..], old(outpos), at, outpos);
      }
      ok := true;
    }

    /** A plain number that comes next, read with `bits`. */
    method ReadNumber(n: nat, ghost v: nat, ghost tail: seq<bool>) returns (ok: bool, r: nat)
      requires Ready() && n <= 16 && v < Pow2(n)
      requires Rest() == Lsb(v, n) + tail && |tail| >= 16
      modifies this`bits, this`count, this`pos
      ensures ok && r == v && Ready() && Rest() == tail
    {
      ValueOfLsb(v, n);
      CodeAhead(Lsb(v, n), tail, n);
      hide Lsb, BitsOf, Pow2, Value;
      ok, r := Bits(n);
    }

    /** The reads of `run`, after length symbol `257 + sym`. */
    method ReadCopy(sym: nat, ghost item: Item, ghost dist: seq<nat>, ghost tail: seq<bool>)
      returns (ok: bool, extra: nat, dsym: nat, more: nat)
      requires Ready() && Built(distcodes, tdist, dist)
      requires item.Copy? && item.lsym == sym < 29 && item.dsym < 30 && HasCode(dist, item.dsym)
      requires item.lextra < Pow2(LenBits(sym)) && item.dextra < Pow2(DistBits(item.dsym))
      requires Rest() == ItemTail(item, dist) + tail && |tail| >= 16
      modifies this`bits, this`count, this`pos
      ensures ok && Ready() && Sound() && Rest() == tail
      ensures extra == item.lextra && dsym == item.dsym && more == item.dextra
    {
      hide Lsb, BitsOf, Pow2, Value, CodeBits, Built, LenBits, DistBits;
      ghost var a, b, c := Lsb(item.lextra, LenBits(sym)), CodeBits(dist, item.dsym),
          Lsb(item.dextra, DistBits(item.dsym));
      assert Rest() == a + (b + (c + tail));
      hide ItemTail;
      ok, extra := ReadNumber(LenBits(sym), item.lextra, b + (c + tail));
      ok, dsym := Decode(distcodes, tdist, dist, item.dsym, c + tail);
      ok, more := ReadNumber(DistBits(dsym), item.dextra, tail);
    }

    lemma ProducedSize()
      requires Sound()
      ensures OutputSound() && |Produced()| == outpos - outbase
    {}

    /** run: a copy whose length symbol was `257 + sym`. */
    method RunItem(sym: nat, ghost item: Item, ghost lit: seq<nat>, ghost dist: seq<nat>, ghost tail: seq<bool>)
      returns (ok: bool)
      requires Ready() && Sound() && Built(distcodes, tdist, dist)
      requires item.Copy? && item.lsym == sym && ItemOk(item, lit, dist) && Reaches(Produced(), item)
      requires Rest() == ItemTail(item, dist) + tail && |tail| >= 16
      modifies this`bits, this`count, this`pos, this`outpos, out
      ensures Sound() && (ok <==> outbase + |Apply(old(Produced()), item)| <= outend)
      ensures ok ==> Ready() && Rest() == tail && Produced() == Apply(old(Produced()), item)
      ensures Untouched(old(out[..]), old(outpos))
    {
      hide *;
      ProducedSize();
      CopyParts(item, lit, dist, Produced());
      var extra, dsym, more;
      ok, extra, dsym, more := ReadCopy(sym, item, dist, tail);
      ReadyParts();
      ok := CopyWithin(more + DistBase(dsym), extra + LenBase(sym));
      ReadyParts();
    }

    lemma ReadyParts()
      ensures Ready() <==> Sound() && count >= 16
      ensures Ready() ==> InputSound()
    {}

    /** The literal and distance tables are built for these code lengths. */
    ghost predicate Tables(lit: seq<nat>, dist: seq<nat>)
      reads this, litcodes, distcodes
    {
      Built(litcodes, tlit, lit) && Built(distcodes, tdist, dist)
    }

    /** What `block` does with a symbol other than the end of the block. */
    method Dispatch(sym: nat, ghost item: Item, ghost lit: seq<nat>, ghost dist: seq<nat>, ghost tail: seq<bool>)
      returns (ok: bool)
      requires Ready() && Built(distcodes, tdist, dist) && ItemOk(item, lit, dist) && Reaches(Produced(), item)
      requires sym == SymbolOf(item) && Rest() == ItemTail(item, dist) + tail && |tail| >= 16
      modifies this`bits, this`count, this`pos, this`outpos, out
      ensures Sound() && (ok <==> outbase + |Apply(old(Produced()), item)| <= outend)
      ensures ok ==> Ready() && Rest() == tail && Produced() == Apply(old(Produced()), item)
      ensures Untouched(old(out[..]), old(outpos))
    {
      hide Lsb, BitsOf, Pow2, CodeBits, KraftOk, CopyBack, Built, Lengths;
      if sym < 256 {
        ok := EmitByte(sym);
      } else {
        ok := RunItem(sym - 257, item, lit, dist, tail);
      }
    }

    /** One turn of the loop in `block`; `done` means the end-of-block symbol came. */
    method OneSymbol(ghost left: seq<Item>, ghost lit: seq<nat>, ghost dist: seq<nat>, ghost tail: seq<bool>)
      returns (ok: bool, done: bool)
      requires Ready() && Tables(lit, dist) && CompressedOk(left, lit, dist, Produced())
      requires Rest() == ItemsCode(left, lit, dist) + (CodeBits(lit, 256) + tail) && |tail| >= 16
      modifies this`bits, this`count, this`pos, this`outpos, out
      ensures Sound() && (done <==> left == []) && Untouched(old(out[..]), old(outpos))
      ensures done ==> ok && Ready() && Rest() == tail && Produced() == old(Produced())
      ensures !done ==> Reaches(old(Produced()), left[0]) && ItemsOk(left[1..], lit, dist)
      ensures !done ==> (ok <==> outbase + |Apply(old(Produced()), left[0])| <= outend)
      ensures !done && ok ==>
                && Ready() && Rest() == ItemsCode(left[1..], lit, dist) + (CodeBits(lit, 256) + tail)
                && Produced() == Apply(old(Produced()), left[0])
    {
      ghost var end := CodeBits(lit, 256) + tail;
      CodeBitsSize(lit, 256);
      NotEndSymbol(left);
      hide Lsb, BitsOf, Pow2, CodeBits, KraftOk, Tree, Total, Apply, HasCode, Lengths, ItemsOk, AllReach, ItemsCode,
           ItemTail, Reaches, ItemOk, Expand;
      ghost var expected, after := 256, tail;
      if left == [] {
        NoMoreItems(lit, dist, Produced());
      } else {
        NextItem(left, lit, dist, end, Rest());
        NextExpand(left, Produced());
        expected := SymbolOf(left[0]);
        after := ItemTail(left[0], dist) + (ItemsCode(left[1..], lit, dist) + end);
        CodeBitsSize(lit, expected);
      }
      assert Rest() == CodeBits(lit, expected) + after;
      var sym;
      ok, sym := Decode(litcodes, tlit, lit, expected, after);
      done := sym == 256;
      if !done {
        ok := Dispatch(sym, left[0], lit, dist, ItemsCode(left[1..], lit, dist) + end);
      }
    }

    /** block: items up to the end-of-block symbol. */
    method Block(ghost items: seq<Item>, ghost lit: seq<nat>, ghost dist: seq<nat>, ghost tail: seq<bool>)
      returns (ok: bool)
      requires Ready() && Tables(lit, dist) && CompressedOk(items, lit, dist, Produced())
      requires Rest() == CompressedCode(items, lit, dist) + tail && |tail| >= 16
      modifies this`bits, this`count, this`pos, this`outpos, out
      ensures Sound() && (ok <==> outbase + |Expand(old(Produced()), items)| <= outend)
      ensures ok ==> Ready() && Rest() == tail && Produced() == Expand(old(Produced()), items)
      ensures Untouched(old(out[..]), old(outpos))
    {
      hide Lsb, BitsOf, Pow2, CodeBits, KraftOk, Built, Apply, Lengths, ItemsOk, AllReach, ItemsCode, Expand;
      ghost var left, goal := items, Expand(Produced(), items);
      assert CompressedCode(items, lit, dist) + tail == ItemsCode(items, lit, dist) + (CodeBits(lit, 256) + tail);
      var done := false;
      hide *;
      while !done
        invariant done ==> Ready() && Rest() == tail && Produced() == goal
        invariant !done ==> UnderWay(left, lit, dist, tail, goal)
        invariant Tables(lit, dist) && Untouched(old(out[..]), old(outpos))
        decreases !done, |left|
      {
        ghost var before, at := out[..], outpos;
        ok, done := KeepGoing(left, lit, dist, tail, goal);
        UntouchedSince(old(out[..]), old(outpos), before, at);
        if !ok {
          return;
        }
        if !done {
          left := left[1..];
        }
      }
      ReadyParts();
      Fits(goal);
      ok := true;
    }

    /** Between two symbols of a block: `left` is still to come and leads to `goal`. */
    ghost predicate UnderWay(left: seq<Item>, lit: seq<nat>, dist: seq<nat>, tail: seq<bool>, goal: seq<byte>)
      reads this, out
    {
      && Ready() && CompressedOk(left, lit, dist, Produced())
      && Expand(Produced(), left) == goal && |tail| >= 16
      && Rest() == ItemsCode(left, lit, dist) + (CodeBits(lit, 256) + tail)
    }

    method KeepGoing(ghost left: seq<Item>, ghost lit: seq<nat>, ghost dist: seq<nat>, ghost tail: seq<bool>,
                     ghost goal: seq<byte>)
      returns (ok: bool, done: bool)
      requires Tables(lit, dist) && UnderWay(left, lit, dist, tail, goal)
      modifies this`bits, this`count, this`pos, this`outpos, out
      ensures Sound() && Tables(lit, dist) && (done <==> left == []) && Untouched(old(out[..]), old(outpos))
      ensures !ok ==> !done && outbase + |goal| > outend
      ensures done ==> Ready() && Rest() == tail && Produced() == goal
      ensures ok && !done ==> UnderWay(left[1..], lit, dist, tail, goal)
    {
      hide Lsb, BitsOf, Pow2, CodeBits, KraftOk, Built, Apply, HasCode, Lengths, ItemsOk, AllReach, ItemsCode, Reaches,
           Expand;
      if left == [] {
        NoMoreItems(lit, dist, Produced());
      } else {
        NextExpand(left, Produced());
      }
      ok, done := OneSymbol(left, lit, dist, tail);
    }

    /** The reads of `stored`: after them the look-ahead holds just the length's complement. */
    method StoredLength(ghost pad: seq<bool>, ghost data: seq<byte>, ghost tail: seq<bool>) returns (ok: bool, len: nat)
      requires Ready() && |data| < 0x10000 && |tail| >= 16
      requires Rest() == StoredCode(pad, data) + tail
      requires |pad| == |Rest()| % 8
      modifies this`bits, this`count, this`pos
      ensures ok && len == |data| && Ready() && count == 16 && bits == 0xffff - len
      ensures pos + len <= inend && input[pos..pos + len] == data && BitsOf(input[pos + len..inend]) == tail
    {
      BitPowers();
      hide Lsb, BitsOf, Pow2, Value;
      ghost var a, b := Lsb(|data|, 16), Lsb(0xffff - |data|, 16);
      ghost var body := b + (BitsOf(data) + tail);
      assert Rest() == pad + (a + body);
      CodeAhead(pad, a + body, |pad|);
      SkippedBits(|Rest()|, count, inend - pos);
      var skipped;
      ok, skipped := Bits(count % 8);
      ok, len := ReadNumber(16, |data|, body);
      Aligned(|body|, |pad|, count, inend - pos);
      ghost var more := input[pos..inend];
      OnlyComplement(bits, 0xffff - |data|, more, data, tail);
      assert input[pos..pos + len] == more[..len] && input[pos + len..inend] == more[len..];
    }

    /** stored: skips to a byte boundary and copies plain bytes, bypassing the look-ahead. */
    method Stored(ghost pad: seq<bool>, ghost data: seq<byte>, ghost tail: seq<bool>) returns (ok: bool)
      requires Ready() && |data| < 0x10000 && |tail| >= 16
      requires Rest() == StoredCode(pad, data) + tail
      requires |pad| == |Rest()| % 8
      modifies this`bits, this`count, this`pos, this`outpos, out
      ensures Sound() && (ok <==> old(outpos) + |data| <= outend)
      ensures ok ==> Ready() && Rest() == tail && Produced() == old(Produced()) + data
      ensures Untouched(old(out[..]), old(outpos))
    {
      hide Lsb, BitsOf, Pow2, Value, StoredCode;
      var len, skip;
      ok, len := StoredLength(pad, data, tail);
      if bits % 0x10000 != 0xffff - len || pos + len > inend {
        ok := false;
        return;
      }
      ok := CopyInput(len);
      if !ok {
        return;
      }
      pos := pos + len;
      assert Rest()[16..] == tail;
      ok, skip := Bits(16);
    }

    /** The code lengths `fixed` fills in. */
    method FixedLengths() returns (lens: array<nat>)
      ensures fresh(lens) && lens[..] == FixedLit() + FixedDist()
    {
      lens := new nat[288 + 32];
      for n := 0 to 144
        invariant forall i :: 0 <= i < n ==> lens[i] == 8
      {
        lens[n] := 8;
      }
      for n := 144 to 256
        invariant forall i :: 0 <= i < n ==> lens[i] == FixedLength(i)
      {
        lens[n] := 9;
      }
      for n := 256 to 280
        invariant forall i :: 0 <= i < n ==> lens[i] == FixedLength(i)
      {
        lens[n] := 7;
      }
      for n := 280 to 288
        invariant forall i :: 0 <= i < n ==> lens[i] == FixedLength(i)
      {
        lens[n] := 8;
      }
      for n := 288 to 288 + 32
        invariant forall i :: 0 <= i < n ==> lens[i] == if i < 288 then FixedLength(i) else 5
      {
        lens[n] := 5;
      }
    }

    /** fixed: the built-in code lengths. */
    method Fixed()
      requires Sound()
      modifies this`tlit, this`tdist, litcodes, distcodes
      ensures Sound() && Tables(FixedLit(), FixedDist())
    {
      var lens := FixedLengths();
      FixedCodesOk();
      hide KraftOk, Lengths, Tree, Total;
      assert lens[..288] == FixedLit() && lens[288..] == FixedDist();
      tlit := Build(litcodes, lens[..288]);
      tdist := Build(distcodes, lens[288..]);
    }

    /** The code-length code's own lengths, in their peculiar order. */
    method ReadLenLens(ghost h: Header, nlen: nat, ghost tail: seq<bool>) returns (ok: bool, lenlens: array<nat>)
      requires Ready() && HeaderOk(h) && nlen == h.nlen && |tail| >= 16
      requires Rest() == OrderCode(h.lenlens, 0, h.nlen) + tail
      modifies this`bits, this`count, this`pos
      ensures ok && fresh(lenlens) && lenlens[..] == h.lenlens && Ready() && Rest() == tail
    {
      OrderFacts();
      hide Lsb, BitsOf, Pow2, KraftOk, LenItemsOk, Lengths, ORDER, OrderCode;
      lenlens := new nat[19](_ => 0);
      ok := true;
      for n := 0 to nlen
        invariant ok && Ready() && Rest() == OrderCode(h.lenlens, n, h.nlen) + tail
        invariant forall i :: 0 <= i < n ==> lenlens[ORDER[i]] == h.lenlens[ORDER[i]]
        invariant forall i :: n <= i < 19 ==> lenlens[ORDER[i]] == 0
      {
        ghost var more := OrderCode(h.lenlens, n + 1, h.nlen) + tail;
        OrderCodeStep(h.lenlens, n, h.nlen);
        assert Rest() == Lsb(h.lenlens[ORDER[n]], 3) + more;
        EightIsThreeBits();
        var l;
        ok, l := ReadNumber(3, h.lenlens[ORDER[n]], more);
        lenlens[ORDER[n]] := l;
      }
      OrderCodeEnd(h.lenlens, h.nlen);
      OrderIsComplete(lenlens[..], h.lenlens);
    }

    /** The reads of one turn of the loop that decodes code lengths. */
    method ReadLenSymbol(ghost it: LenItem, ghost lenlens: seq<nat>, ghost tail: seq<bool>)
      returns (ok: bool, sym: nat, e: nat)
      requires Ready() && Built(lencodes, tlen, lenlens) && LenItemOk(it, lenlens) && |tail| >= 16
      requires Rest() == LenItemCode(it, lenlens) + tail
      modifies this`bits, this`count, this`pos
      ensures ok && Ready() && Rest() == tail && sym == LenSymbol(it) && e == ExtraOf(it)
    {
      CodeBitsSize(lenlens, LenSymbol(it));
      LenItemExtras(it, lenlens);
      hide Lsb, BitsOf, Pow2, KraftOk, CodeBits, Tree, Total, Lengths, HasCode, LenItemOk, LenItemCode;
      ghost var extra := Lsb(ExtraOf(it), ExtraBits(it));
      assert Rest() == CodeBits(lenlens, LenSymbol(it)) + (extra + tail);
      ok, sym := Decode(lencodes, tlen, lenlens, LenSymbol(it), extra + tail);
      e := 0;
      if sym == 16 {
        ok, e := ReadNumber(2, ExtraOf(it), tail);
      } else if sym == 17 {
        ok, e := ReadNumber(3, ExtraOf(it), tail);
      } else if sym == 18 {
        ok, e := ReadNumber(7, ExtraOf(it), tail);
      } else {
        assert extra == [];
      }
    }

    /** One turn of the loop that decodes code lengths; `lens[..n]` are known. */
    method ReadLenItem(ghost it: LenItem, ghost lenlens: seq<nat>, lens: array<nat>, n: nat, ghost tail: seq<bool>)
      returns (ok: bool, next: nat)
      requires Ready() && Built(lencodes, tlen, lenlens) && LenItemOk(it, lenlens) && |tail| >= 16
      requires Rest() == LenItemCode(it, lenlens) + tail
      requires lens != lencodes && lens.Length == 320 && n <= 320 && (it.Again? ==> n > 0)
      requires |AddLengths(lens[..n], it)| <= 320
      modifies this`bits, this`count, this`pos, lens
      ensures ok && Ready() && Rest() == tail && next <= 320 && lens[..next] == AddLengths(old(lens[..n]), it)
      ensures Built(lencodes, tlen, lenlens)
    {
      LenItemExtras(it, lenlens);
      hide Lsb, BitsOf, Pow2, Built, LenItemOk, LenItemCode, HasCode;
      var sym, e;
      ok, sym, e := ReadLenSymbol(it, lenlens, tail);
      if sym == 16 {
        next := FillLengths(lens, n, lens[n - 1], 3 + e);
      } else if sym == 17 {
        next := FillLengths(lens, n, 0, 3 + e);
      } else if sym == 18 {
        next := FillLengths(lens, n, 0, 11 + e);
      } else {
        lens[n] := sym;
        next := n + 1;
      }
    }

    /** Between two code lengths: `lens[..n]` are known, and `left` brings them to `goal`. */
    ghost predicate LengthsUnderWay(lens: array<nat>, n: nat, left: seq<LenItem>, lenlens: seq<nat>, goal: seq<nat>,
                                    tail: seq<bool>)
      reads this, lens
    {
      && Ready() && lens.Length == 320 && n <= |goal| <= 320 && |tail| >= 16
      && LenItemsOk(left, lenlens) && Rest() == LenItemsCode(left, lenlens) + tail
      && AllLengths(lens[..n], left) == goal
      && (n > 0 || StartsPlain(left))
    }

    method MoreLengths(lens: array<nat>, n: nat, ghost left: seq<LenItem>, ghost lenlens: seq<nat>,
                       ghost goal: seq<nat>, ghost tail: seq<bool>)
      returns (ok: bool, next: nat)
      requires LengthsUnderWay(lens, n, left, lenlens, goal, tail) && n < |goal|
      requires Built(lencodes, tlen, lenlens) && lens != lencodes
      modifies this`bits, this`count, this`pos, lens
      ensures ok && left != [] && LengthsUnderWay(lens, next, left[1..], lenlens, goal, tail)
      ensures Built(lencodes, tlen, lenlens)
    {
      hide *;
      NextLenItem(lens, n, left, lenlens, goal, tail);
      ghost var before, more := lens[..n], LenItemsCode(left[1..], lenlens) + tail;
      ok, next := ReadLenItem(left[0], lenlens, lens, n, more);
      StillUnderWay(lens, next, before, left, lenlens, goal, tail);
    }

    /** What the next code length is read under. */
    lemma NextLenItem(lens: array<nat>, n: nat, left: seq<LenItem>, lenlens: seq<nat>, goal: seq<nat>,
                      tail: seq<bool>)
      requires LengthsUnderWay(lens, n, left, lenlens, goal, tail) && n < |goal|
      ensures Ready() && InputSound() && lens.Length == 320 && n <= 320 && left != []
      ensures LenItemOk(left[0], lenlens) && LenItemsOk(left[1..], lenlens) && (left[0].Again? ==> n > 0)
      ensures |LenItemsCode(left[1..], lenlens) + tail| >= 16 && |tail| >= 16
      ensures Rest() == LenItemCode(left[0], lenlens) + (LenItemsCode(left[1..], lenlens) + tail)
      ensures AllLengths(AddLengths(lens[..n], left[0]), left[1..]) == goal
      ensures n < |AddLengths(lens[..n], left[0])| <= |goal| <= 320
    {
      hide Lsb, BitsOf, Pow2, KraftOk, CodeBits, Lengths, LenItemOk, LenItemCode, AddLengths, AllLengths,
           LenItemsCode, LenItemsOk, Rest, StartsPlain;
      assert |lens[..n]| == n;
      ItemAhead(lens[..n], left, lenlens);
      assert (LenItemCode(left[0], lenlens) + LenItemsCode(left[1..], lenlens)) + tail
          == LenItemCode(left[0], lenlens) + (LenItemsCode(left[1..], lenlens) + tail);
    }

    lemma StillUnderWay(lens: array<nat>, next: nat, before: seq<nat>, left: seq<LenItem>, lenlens: seq<nat>,
                        goal: seq<nat>, tail: seq<bool>)
      requires Ready() && lens.Length == 320 && left != [] && LenItemsOk(left[1..], lenlens)
      requires Rest() == LenItemsCode(left[1..], lenlens) + tail && |tail| >= 16
      requires AllLengths(AddLengths(before, left[0]), left[1..]) == goal
      requires |before| < |AddLengths(before, left[0])| <= |goal| <= 320
      requires next <= 320 && lens[..next] == AddLengths(before, left[0])
      ensures LengthsUnderWay(lens, next, left[1..], lenlens, goal, tail)
    {
      hide Lsb, BitsOf, Pow2, KraftOk, CodeBits, Lengths, LenItemOk, LenItemCode, AddLengths, AllLengths,
           LenItemsCode, LenItemsOk, Rest, Ready, InputSound, StartsPlain;
      assert |lens[..next]| == next;
    }

    /** The code lengths of both tables. */
    method ReadLengths(ghost h: Header, total: nat, lens: array<nat>, ghost tail: seq<bool>) returns (ok: bool)
      requires Ready() && HeaderOk(h) && Built(lencodes, tlen, h.lenlens) && |tail| >= 16
      requires Rest() == LenItemsCode(h.items, h.lenlens) + tail
      requires lens != lencodes && lens.Length == 320 && total == h.nlit + h.ndist
      modifies this`bits, this`count, this`pos, lens
      ensures ok && Ready() && Rest() == tail && lens[..total] == h.Lens()
    {
      HeaderItems(h);
      assert lens[..0] == [];
      hide Lsb, BitsOf, Pow2, KraftOk, Lengths, LenItemOk, AllLengths, LenItemsCode, HeaderOk, Built, LenItemsOk,
           StartsPlain;
      ok := LengthsLoop(lens, total, h.items, h.lenlens, h.Lens(), tail);
    }

    /** The loop that decodes code lengths. */
    method LengthsLoop(lens: array<nat>, total: nat, ghost items: seq<LenItem>, ghost lenlens: seq<nat>,
                       ghost goal: seq<nat>, ghost tail: seq<bool>) returns (ok: bool)
      requires LengthsUnderWay(lens, 0, items, lenlens, goal, tail) && total == |goal|
      requires Built(lencodes, tlen, lenlens) && lens != lencodes
      modifies this`bits, this`count, this`pos, lens
      ensures ok && Ready() && Rest() == tail && total <= lens.Length && lens[..total] == goal
    {
      hide *;
      ok := true;
      var n: nat := 0;
      ghost var left := items;
      while n < total
        invariant ok && Built(lencodes, tlen, lenlens)
        invariant LengthsUnderWay(lens, n, left, lenlens, goal, tail)
        decreases |left|
      {
        ok, n := MoreLengths(lens, n, left, lenlens, goal, tail);
        left := left[1..];
      }
      LengthsReached(lens, n, left, lenlens, goal, tail);
    }

    lemma LengthsReached(lens: array<nat>, n: nat, left: seq<LenItem>, lenlens: seq<nat>, goal: seq<nat>,
                         tail: seq<bool>)
      requires LengthsUnderWay(lens, n, left, lenlens, goal, tail) && n >= |goal|
      ensures Ready() && Rest() == tail && n == |goal| <= lens.Length && lens[..n] == goal
    {
      LengthsGrow(lens[..n], left);
      NoLengthsLeft(lens[..n], left);
      hide Lsb, BitsOf, Pow2, LenItemOk, AllLengths;
    }

    /** The three counts at the head of a dynamic block. */
    method ReadCounts(ghost h: Header, ghost tail: seq<bool>) returns (ok: bool, nlit: nat, ndist: nat, nlen: nat)
      requires Ready() && HeaderOk(h) && |tail| >= 16
      requires Rest() == Lsb(h.nlit - 257, 5) + (Lsb(h.ndist - 1, 5) + (Lsb(h.nlen - 4, 4) + tail))
      modifies this`bits, this`count, this`pos
      ensures ok && Ready() && Rest() == tail && nlit == h.nlit && ndist == h.ndist && nlen == h.nlen
    {
      hide Lsb, BitsOf, Pow2, KraftOk, Lengths, LenItemsOk, AllLengths, ORDER;
      ghost var a, b, c := Lsb(h.nlit - 257, 5), Lsb(h.ndist - 1, 5), Lsb(h.nlen - 4, 4);
      SmallFields();
      ok, nlit := ReadNumber(5, h.nlit - 257, b + (c + tail));
      nlit := nlit + 257;
      ok, ndist := ReadNumber(5, h.ndist - 1, c + tail);
      ndist := ndist + 1;
      ok, nlen := ReadNumber(4, h.nlen - 4, tail);
      nlen := nlen + 4;
    }

    /** dynamic: both tables from the block's own header. */
    method Dynamic(ghost h: Header, ghost tail: seq<bool>) returns (ok: bool)
      requires Ready() && HeaderOk(h) && Rest() == HeaderCode(h) + tail && |tail| >= 16
      modifies this`bits, this`count, this`pos, this`tlit, this`tdist, this`tlen, litcodes, distcodes, lencodes
      ensures ok && Ready() && Rest() == tail && Tables(h.Lit(), h.Dist())
    {
      hide Lsb, BitsOf, Pow2, OrderCode, LenItemsCode, LenItemsOk, AllLengths, ORDER, KraftOk, Lengths, Tree, Total;
      ghost var order, coded := OrderCode(h.lenlens, 0, h.nlen), LenItemsCode(h.items, h.lenlens);
      assert Rest() == Lsb(h.nlit - 257, 5) + (Lsb(h.ndist - 1, 5) + (Lsb(h.nlen - 4, 4) + (order + (coded + tail))));
      var nlit, ndist, nlen, lenlens;
      ok, nlit, ndist, nlen := ReadCounts(h, order + (coded + tail));
      ok, lenlens := ReadLenLens(h, nlen, coded + tail);
      tlen := Build(lencodes, lenlens[..]);
      var lens := new nat[288 + 32];
      ok := ReadLengths(h, nlit + ndist, lens, tail);
      BuildTables(lens, nlit, ndist, h);
    }

    method BuildTables(lens: array<nat>, nlit: nat, ndist: nat, ghost h: Header)
      requires Sound() && HeaderOk(h) && nlit == h.nlit && ndist == h.ndist
      requires lens != litcodes && lens != distcodes && lens.Length == 320 && lens[..nlit + ndist] == h.Lens()
      modifies this`tlit, this`tdist, litcodes, distcodes
      ensures Sound() && Tables(h.Lit(), h.Dist())
    {
      hide AllLengths, LenItemsOk, ORDER, KraftOk, Lengths, Tree, Total, Pow2;
      assert lens[..nlit] == lens[..nlit + ndist][..nlit];
      assert lens[nlit..nlit + ndist] == lens[..nlit + ndist][nlit..];
      ghost var dist := lens[nlit..nlit + ndist];
      tlit := Build(litcodes, lens[..nlit]);
      tdist := Build(distcodes, lens[nlit..nlit + ndist]);
    }

    /** A block in the fixed codes. */
    method FixedKind(ghost items: seq<Item>, ghost tail: seq<bool>) returns (ok: bool)
      requires Ready() && CompressedOk(items, FixedLit(), FixedDist(), Produced()) && |tail| >= 16
      requires Rest() == CompressedCode(items, FixedLit(), FixedDist()) + tail
      modifies this`bits, this`count, this`pos, this`outpos, this`tlit, this`tdist, out, litcodes, distcodes
      ensures Sound() && (ok <==> outbase + |Expand(old(Produced()), items)| <= outend)
      ensures ok ==> Ready() && Rest() == tail && Produced() == Expand(old(Produced()), items)
      ensures Untouched(old(out[..]), old(outpos))
    {
      hide Lsb, BitsOf, Pow2, CompressedOk, Expand, Built, FixedLit, FixedDist, CompressedCode;
      Fixed();
      ok := Block(items, FixedLit(), FixedDist(), tail);
    }

    /** A block in codes of its own. */
    method DynamicKind(ghost h: Header, ghost items: seq<Item>, ghost tail: seq<bool>) returns (ok: bool)
      requires Ready() && HeaderOk(h) && CompressedOk(items, h.Lit(), h.Dist(), Produced()) && |tail| >= 16
      requires Rest() == HeaderCode(h) + CompressedCode(items, h.Lit(), h.Dist()) + tail
      modifies this`bits, this`count, this`pos, this`outpos, this`tlit, this`tdist, this`tlen, out, litcodes, distcodes,
               lencodes
      ensures Sound() && (ok <==> outbase + |Expand(old(Produced()), items)| <= outend)
      ensures ok ==> Ready() && Rest() == tail && Produced() == Expand(old(Produced()), items)
      ensures Untouched(old(out[..]), old(outpos))
    {
      hide Lsb, BitsOf, Pow2, Expand, Built, CompressedCode, HeaderOk, HeaderCode, ItemsOk, AllReach;
      ghost var body := CompressedCode(items, h.Lit(), h.Dist());
      assert Rest() == HeaderCode(h) + (body + tail);
      ok := Dynamic(h, body + tail);
      ok := Block(items, h.Lit(), h.Dist(), tail);
    }

    /** The body of the loop over blocks, after the two header fields. */
    method BlockOfKind(kind: nat, ghost b: BlockDesc, ghost tail: seq<bool>) returns (ok: bool)
      requires Ready() && BlockOk(b, Produced()) && kind == Kind(b) && |tail| >= 16
      requires Rest() == BlockBody(b, Produced()) + tail
      requires b.StoredBlock? ==> |b.pad| == |Rest()| % 8
      modifies this`bits, this`count, this`pos, this`outpos, this`tlit, this`tdist, this`tlen, out, litcodes, distcodes,
               lencodes
      ensures Sound() && (ok <==> outbase + |AfterBlock(b, old(Produced()))| <= outend)
      ensures ok ==> Ready() && Rest() == tail && Produced() == AfterBlock(b, old(Produced()))
      ensures Untouched(old(out[..]), old(outpos))
    {
      BodyParts(b, Produced());
      hide *;
      if kind == 0 {
        ok := Stored(b.pad, b.data, tail);
      } else if kind == 1 {
        ok := FixedKind(b.items, tail);
      } else {
        ok := DynamicKind(b.h, b.items, tail);
      }
    }

    /** The stream from here on spells out `left`, and with what is produced makes `goal`. */
    ghost predicate StreamUnderWay(left: seq<BlockDesc>, tail: seq<bool>, goal: seq<byte>)
      reads this, out
    {
      && Ready() && |tail| >= 16
      && StreamOk(Rest(), Produced(), left, tail)
      && StreamBytes(Produced(), left, Rest(), tail) == goal
    }

    /** The first refill, then the blocks. */
    method Run(ghost blocks: seq<BlockDesc>, ghost tail: seq<bool>, ghost goal: seq<byte>) returns (ok: bool)
      requires Sound() && count == 0 && Produced() == [] && |tail| >= 16 && |Rest()| >= 16
      requires StreamOk(Rest(), [], blocks, tail) && StreamBytes([], blocks, Rest(), tail) == goal
      modifies this, out, litcodes, distcodes, lencodes
      ensures Sound() && (ok <==> outbase + |goal| <= outend) && (ok ==> Produced() == goal)
      ensures Untouched(old(out[..]), old(outpos))
    {
      hide BitsOf, Lsb, Pow2, Value, StreamOk, StreamBytes;
      var skip;
      ok, skip := Bits(0);
      ok := RunBlocks(blocks, tail, goal);
    }

    /** The loop over blocks. */
    method RunBlocks(ghost blocks: seq<BlockDesc>, ghost tail: seq<bool>, ghost goal: seq<byte>) returns (ok: bool)
      requires StreamUnderWay(blocks, tail, goal)
      modifies this, out, litcodes, distcodes, lencodes
      ensures Sound() && (ok <==> outbase + |goal| <= outend) && (ok ==> Produced() == goal)
      ensures Untouched(old(out[..]), old(outpos))
    {
      hide BitsOf, Lsb, Pow2, StreamOk, StreamBytes, BlockOk, BlockCode, AfterBlock;
      ghost var left := blocks;
      var last := false;
      while !last
        invariant last ==> Sound() && Produced() == goal
        invariant !last ==> StreamUnderWay(left, tail, goal)
        invariant Untouched(old(out[..]), old(outpos))
        decreases !last, |left|
      {
        ghost var r, p := Rest(), Produced();
        NextBlock(r, p, left, tail);
        ghost var code := BlockCode(left[0], |left| == 1, p);
        ghost var before, at := out[..], outpos;
        ok, last := OneBlock(left[0], |left| == 1, r[|code|..]);
        UntouchedSince(old(out[..]), old(outpos), before, at);
        if !ok {
          return;
        }
        left := left[1..];
      }
      Fits(goal);
      ok := true;
    }

    /** One turn of the loop over blocks. */
    method OneBlock(ghost b: BlockDesc, ghost isLast: bool, ghost tail: seq<bool>) returns (ok: bool, last: bool)
      requires Ready() && BlockOk(b, Produced()) && PadOk(b, |Rest()|) && |tail| >= 16
      requires Rest() == BlockCode(b, isLast, Produced()) + tail
      modifies this`bits, this`count, this`pos, this`outpos, this`tlit, this`tdist, this`tlen, out, litcodes, distcodes,
               lencodes
      ensures Sound() && (ok <==> outbase + |AfterBlock(b, old(Produced()))| <= outend)
      ensures ok ==> last == isLast && Ready() && Rest() == tail && Produced() == AfterBlock(b, old(Produced()))
      ensures Untouched(old(out[..]), old(outpos))
    {
      HeaderBits(isLast, Kind(b));
      hide Lsb, BitsOf, Pow2, BlockBody, BlockOk, AfterBlock;
      ghost var body := BlockBody(b, Produced()) + tail;
      ghost var total := |Rest()|;
      assert Rest() == Lsb(if isLast then 1 else 0, 1) + (Lsb(Kind(b), 2) + body);
      var flag, kind;
      ok, flag := ReadNumber(1, if isLast then 1 else 0, Lsb(Kind(b), 2) + body);
      ok, kind := ReadNumber(2, Kind(b), body);
      assert |body| == total - 3;
      ok := BlockOfKind(kind, b, tail);
      last := flag == 1;
    }

    /** One byte joins the look-ahead above the bits already there. */
    method Refill()
      requires Sound() && count < 16 && pos < inend
      modifies this`bits, this`count, this`pos
      ensures Sound() && Rest() == old(Rest()) && count == old(count) + 8
    {
      hide Lsb, BitsOf, Pow2;
      ghost var b, tail := input[pos], input[pos + 1..inend];
      LsbSplit(bits, b, count, 8);
      BitsOfAppend([b], tail);
      BitsOfOne(b);
      assert input[pos..inend] == [b] + tail;
      ShiftedByteFits(bits, count, b);
      bits := bits + Pow2(count) * input[pos];
      pos := pos + 1;
      count := count + 8;
    }
  }

  /** Two buffers differ only between `lo` and `hi`. */
  ghost predicate SameOutside(a: seq<byte>, b: seq<byte>, lo: nat, hi: nat) {
    lo <= hi <= |a| == |b| && a[..lo] == b[..lo] && a[hi..] == b[hi..]
  }

  lemma OutsideSame(a: seq<byte>, lo: nat)
    requires lo <= |a|
    ensures SameOutside(a, a, lo, lo)
  {}

  lemma OutsideKept(a: seq<byte>, b: seq<byte>, c: seq<byte>, lo: nat, mid: nat, hi: nat)
    requires SameOutside(a, b, lo, mid) && SameOutside(b, c, mid, hi)
    ensures SameOutside(a, c, lo, hi)
  {
    assert c[..lo] == c[..mid][..lo] && b[..lo] == b[..mid][..lo];
    assert a[hi..] == a[mid..][hi - mid..] && b[hi..] == b[mid..][hi - mid..];
  }

  lemma ShiftedByteFits(bits: nat, count: nat, b: byte)
    requires bits < Pow2(count)
    ensures bits + Pow2(count) * b < Pow2(count + 8)
  {
    Pow2Add(count, 8);
    BitPowers();
    hide Pow2;
    var p := Pow2(count);
    ProductOrder(b + 1, 256, p);
    Distribute1(b, p);
    assert p * b == b * p;
  }

  lemma SkippedBits(total: nat, count: nat, bytes: nat)
    requires total == count + 8 * bytes
    ensures total % 8 == count % 8
  {}

  /** Past the padding and one whole field, sixteen bits are looked ahead and no more. */
  lemma Aligned(left: nat, pad: nat, count: nat, bytes: nat)
    requires pad == (pad + (16 + left)) % 8 && left == count + 8 * bytes && 16 <= count < 24
    ensures count == 16
  {}

  lemma CodeBitsSize(lens: seq<nat>, n: nat)
    requires HasCode(lens, n)
    ensures |CodeBits(lens, n)| == lens[n]
  {}

  lemma CodeAhead(a: seq<bool>, tail: seq<bool>, n: nat)
    requires |a| <= n <= |a| + |tail|
    ensures a <= (a + tail)[..n] && (a + tail)[|a|..] == tail && (a + tail)[..|a|] == a
  {}

  /** The low sixteen bits of the look-ahead word are the next sixteen bits of the stream. */
  lemma LookAhead(bits: nat, count: nat, tail: seq<byte>)
    requires count >= 16
    ensures MsbValue((Lsb(bits, count) + BitsOf(tail))[..16]) == Reversed(bits, 16)
  {
    LsbPrefix(bits, 16, count);
    hide Lsb, BitsOf, MsbValue, Pow2;
    assert (Lsb(bits, count) + BitsOf(tail))[..16] == Lsb(bits, 16);
  }

  lemma TreeIsSorted(tree: seq<nat>, lens: seq<nat>)
    requires Lengths(lens) && Tree(tree, lens)
    ensures forall s, t :: 0 <= s < t < Total(lens) ==> tree[s] < tree[t]
  {
    forall s, t | 0 <= s < t < Total(lens)
      ensures tree[s] < tree[t]
    {
      TreeSorted(tree, lens, s, t);
    }
  }

  lemma NothingCopied(out: seq<byte>, d: nat)
    requires 0 < d <= |out|
    ensures CopyBack(out, d, 0) == out
  {}

  lemma {:induction false} CopyBackStep(out: seq<byte>, d: nat, n: nat)
    requires 0 < d <= |out|
    ensures var r := CopyBack(out, d, n);
            CopyBack(out, d, n + 1) == r + [r[|r| - d]]
    decreases n
  {
    if n != 0 { CopyBackStep(out + [out[|out| - d]], d, n - 1); }
  }

  /** The symbol that announces an item. */
  function SymbolOf(item: Item): nat {
    match item
    case Literal(b) => b
    case Copy(lsym, _, _, _) => 257 + lsym
  }

  /** What follows the announcing symbol. */
  function ItemTail(item: Item, dist: seq<nat>): seq<bool>
    requires item.Copy? ==> item.lsym < 29 && item.dsym < 30 && item.dsym < |dist|
  {
    match item
    case Literal(b) => []
    case Copy(lsym, lextra, dsym, dextra) =>
      Lsb(lextra, LenBits(lsym)) + (CodeBits(dist, dsym) + Lsb(dextra, DistBits(dsym)))
  }

  lemma FourParts(a: seq<bool>, b: seq<bool>, m: seq<bool>, t: seq<bool>)
    ensures ((a + b) + m) + t == a + (b + (m + t))
  {}

  /** How the next item lies at the head of the stream. */
  lemma NextItem(left: seq<Item>, lit: seq<nat>, dist: seq<nat>, after: seq<bool>, rest: seq<bool>)
    requires ItemsOk(left, lit, dist) && left != []
    requires rest == ItemsCode(left, lit, dist) + after
    ensures ItemOk(left[0], lit, dist) && ItemsOk(left[1..], lit, dist)
    ensures HasCode(lit, SymbolOf(left[0])) &&
            (left[0].Copy? ==> left[0].lsym < 29 && left[0].dsym < 30 && left[0].dsym < |dist|)
    ensures rest == CodeBits(lit, SymbolOf(left[0]))
              + (ItemTail(left[0], dist) + (ItemsCode(left[1..], lit, dist) + after))
  {
    hide CodeBits, Lsb, Pow2;
    assert ItemsOk(left[1..], lit, dist);
    ItemSplits(left[0], lit, dist);
    FourParts(CodeBits(lit, SymbolOf(left[0])), ItemTail(left[0], dist), ItemsCode(left[1..], lit, dist), after);
    hide ItemTail, ItemCode;
  }

  lemma ItemSplits(item: Item, lit: seq<nat>, dist: seq<nat>)
    requires ItemOk(item, lit, dist)
    ensures HasCode(lit, SymbolOf(item)) && (item.Copy? ==> item.lsym < 29 && item.dsym < 30 && item.dsym < |dist|)
    ensures ItemCode(item, lit, dist) == CodeBits(lit, SymbolOf(item)) + ItemTail(item, dist)
  {
    hide CodeBits, Lsb, Pow2;
  }

  lemma CopyParts(item: Item, lit: seq<nat>, dist: seq<nat>, out: seq<byte>)
    requires item.Copy? && ItemOk(item, lit, dist) && Reaches(out, item)
    ensures item.lsym < 29 && item.dsym < 30 && HasCode(dist, item.dsym)
    ensures item.lextra < Pow2(LenBits(item.lsym)) && item.dextra < Pow2(DistBits(item.dsym))
    ensures 0 < DistBase(item.dsym) + item.dextra <= |out|
    ensures Apply(out, item) == CopyBack(out, DistBase(item.dsym) + item.dextra, LenBase(item.lsym) + item.lextra)
  {
    hide Pow2, CopyBack, LenBits, LenBase, DistBits, DistBase;
  }

  lemma NextExpand(left: seq<Item>, out: seq<byte>)
    requires AllReach(out, left) && left != []
    ensures Reaches(out, left[0]) && AllReach(Apply(out, left[0]), left[1..])
    ensures Expand(out, left) == Expand(Apply(out, left[0]), left[1..])
    ensures |Apply(out, left[0])| <= |Expand(out, left)|
  {
    hide Apply;
  }

  lemma NoMoreItems(lit: seq<nat>, dist: seq<nat>, out: seq<byte>)
    ensures ItemsOk([], lit, dist) && ItemsCode([], lit, dist) == [] && AllReach(out, []) && Expand(out, []) == out
  {}

  /** No item is announced by the end-of-block symbol. */
  lemma NotEndSymbol(left: seq<Item>)
    ensures left != [] ==> SymbolOf(left[0]) != 256
  {}

  lemma {:induction false} BitsOfInjective(x: seq<byte>, d: seq<byte>, t: seq<bool>)
    requires BitsOf(x) == BitsOf(d) + t
    ensures |d| <= |x| && x[..|d|] == d && BitsOf(x[|d|..]) == t
  {
    if d != [] {
      var u, v := x[0], d[0];
      assert BitsOf(x)[..8] == Lsb(u, 8) && (BitsOf(d) + t)[..8] == Lsb(v, 8);
      assert BitsOf(x)[8..] == BitsOf(x[1..]) && (BitsOf(d) + t)[8..] == BitsOf(d[1..]) + t;
      BitPowers();
      ValueOfLsb(u, 8);
      ValueOfLsb(v, 8);
      BitsOfInjective(x[1..], d[1..], t);
      hide BitsOf, Lsb;
      assert x[|d|..] == x[1..][|d| - 1..];
      assert x[..|d|] == [u] + x[1..][..|d| - 1];
    }
  }

  /** With sixteen bits looked ahead, those are the complement, and the input goes on with the data. */
  lemma OnlyComplement(bits: nat, v: nat, more: seq<byte>, data: seq<byte>, tail: seq<bool>)
    requires bits < Pow2(16) && v < 0x10000
    requires Lsb(bits, 16) + BitsOf(more) == Lsb(v, 16) + (BitsOf(data) + tail)
    ensures bits == v && |data| <= |more| && more[..|data|] == data && BitsOf(more[|data|..]) == tail
  {
    BitPowers();
    ValueOfLsb(bits, 16);
    ValueOfLsb(v, 16);
    hide Lsb, BitsOf, Value, Pow2;
    var l, r := Lsb(bits, 16) + BitsOf(more), Lsb(v, 16) + (BitsOf(data) + tail);
    assert l[..16] == Lsb(bits, 16) && r[..16] == Lsb(v, 16);
    assert l[16..] == BitsOf(more) && r[16..] == BitsOf(data) + tail;
    BitsOfInjective(more, data, tail);
  }

  /** A run of equal code lengths. */
  method FillLengths(lens: array<nat>, n: nat, v: nat, k: nat) returns (next: nat)
    requires n + k <= lens.Length
    modifies lens
    ensures next == n + k && lens[..next] == old(lens[..n]) + Times(v, k)
  {
    next := n;
    for i := 0 to k
      invariant next == n + i && lens[..n] == old(lens[..n])
      invariant forall m :: n <= m < next ==> lens[m] == v
    {
      lens[next] := v;
      next := next + 1;
    }
  }

  lemma HeaderItems(h: Header)
    requires HeaderOk(h)
    ensures LenItemsOk(h.items, h.lenlens) && StartsPlain(h.items) && |h.Lens()| == h.nlit + h.ndist <= 320
    ensures AllLengths([], h.items) == h.Lens()
  {}

  lemma EightIsThreeBits()
    ensures Pow2(3) == 8
  {
    SmallPowersOfTwo();
  }

  lemma SmallFields()
    ensures Pow2(4) == 16 && Pow2(5) == 32
  {
    SmallPowersOfTwo();
  }

  lemma OrderFacts()
    ensures |ORDER| == 19 && forall i :: 0 <= i < 19 ==> ORDER[i] < 19
    ensures forall i, j :: 0 <= i < j < 19 ==> ORDER[i] != ORDER[j]
  {}

  lemma OrderCodeStep(lenlens: seq<nat>, i: nat, n: nat)
    requires |lenlens| == 19 && i < n <= 19
    ensures OrderCode(lenlens, i, n) == Lsb(lenlens[ORDER[i]], 3) + OrderCode(lenlens, i + 1, n)
  {}

  lemma OrderCodeEnd(lenlens: seq<nat>, n: nat)
    requires |lenlens| == 19 && n <= 19
    ensures OrderCode(lenlens, n, n) == []
  {}

  lemma ItemAddsLengths(lens: seq<nat>, it: LenItem)
    ensures |AddLengths(lens, it)| > |lens|
  {}

  lemma OrderIsComplete(a: seq<nat>, b: seq<nat>)
    requires |a| == |b| == 19 && forall i :: 0 <= i < 19 ==> a[ORDER[i]] == b[ORDER[i]]
    ensures a == b
  {
    forall k | 0 <= k < 19
      ensures a[k] == b[k]
    {
      var inverse := [3, 17, 15, 13, 11, 9, 7, 5, 4, 6, 8, 10, 12, 14, 16, 18, 0, 1, 2];
      assert ORDER[inverse[k]] == k;
    }
  }

  lemma LenItemExtras(it: LenItem, lenlens: seq<nat>)
    requires LenItemOk(it, lenlens)
    ensures HasCode(lenlens, LenSymbol(it)) && ExtraOf(it) < Pow2(ExtraBits(it)) && (it.One? ==> it.l <= 15)
    ensures LenItemCode(it, lenlens) == CodeBits(lenlens, LenSymbol(it)) + Lsb(ExtraOf(it), ExtraBits(it))
  {}

  /** While lengths are missing there is a next item, and it does not overshoot. */
  lemma NextLengths(lens: seq<nat>, left: seq<LenItem>)
    requires |lens| < |AllLengths(lens, left)|
    ensures left != [] && AllLengths(lens, left) == AllLengths(AddLengths(lens, left[0]), left[1..])
    ensures |lens| < |AddLengths(lens, left[0])| <= |AllLengths(lens, left)|
  {
    hide AddLengths;
    LengthsGrow(AddLengths(lens, left[0]), left[1..]);
    ItemAddsLengths(lens, left[0]);
  }

  lemma LenItemsStep(left: seq<LenItem>, lenlens: seq<nat>)
    requires LenItemsOk(left, lenlens) && left != []
    ensures LenItemOk(left[0], lenlens) && LenItemsOk(left[1..], lenlens)
    ensures LenItemsCode(left, lenlens) == LenItemCode(left[0], lenlens) + LenItemsCode(left[1..], lenlens)
  {}

  /** The first of the items that are left. */
  lemma ItemAhead(lens: seq<nat>, left: seq<LenItem>, lenlens: seq<nat>)
    requires LenItemsOk(left, lenlens) && |lens| < |AllLengths(lens, left)| && (|lens| > 0 || StartsPlain(left))
    ensures left != [] && LenItemOk(left[0], lenlens) && LenItemsOk(left[1..], lenlens)
    ensures left[0].Again? ==> |lens| > 0
    ensures LenItemsCode(left, lenlens) == LenItemCode(left[0], lenlens) + LenItemsCode(left[1..], lenlens)
    ensures AllLengths(AddLengths(lens, left[0]), left[1..]) == AllLengths(lens, left)
    ensures |lens| < |AddLengths(lens, left[0])| <= |AllLengths(lens, left)|
  {
    hide AllLengths, AddLengths, LenItemsOk, LenItemOk, LenItemsCode, LenItemCode;
    NextLengths(lens, left);
    LenItemsStep(left, lenlens);
  }

  lemma NoLengthsLeft(lens: seq<nat>, left: seq<LenItem>)
    ensures left == [] ==> AllLengths(lens, left) == lens
    ensures left != [] ==> AllLengths(lens, left) == AllLengths(AddLengths(lens, left[0]), left[1..])
  {}

  lemma HeaderBits(last: bool, kind: nat)
    ensures Lsb(if last then 1 else 0, 1) == [last] && Pow2(1) == 2 && Pow2(2) == 4
  {
    SmallPowersOfTwo();
    assert Lsb(if last then 1 else 0, 1) == [last] + Lsb(0, 0);
  }

  /** tigrInflate, on a stream that spells out `blocks`: it returns 1 just when their bytes fit in
      the output window, and leaves them at its front and what lies behind them alone, having read
      at most the two bytes it may read past `inlen`. */
  method TigrInflate(out: array<byte>, outbase: nat, outlen: nat, input: seq<byte>, start: nat, inlen: nat,
                     ghost blocks: seq<BlockDesc>, ghost tail: seq<bool>) returns (ok: bool)
    requires outbase + outlen <= out.Length && start + inlen + 2 <= |input|
    requires StreamOk(BitsOf(input[start..start + inlen + 2]), [], blocks, tail) && |tail| >= 16
    modifies out
    ensures var bytes := StreamBytes([], blocks, BitsOf(input[start..start + inlen + 2]), tail);
            && (ok <==> |bytes| <= outlen)
            && (ok ==> out[outbase..outbase + |bytes|] == bytes
                       && out[outbase + |bytes|..] == old(out[outbase + |bytes|..]))
    ensures out[..outbase] == old(out[..outbase]) && out[outbase + outlen..] == old(out[outbase + outlen..])
  {
    hide BitsOf, Pow2, Value, StreamOk, StreamBytes, Lsb;
    ghost var rest := BitsOf(input[start..start + inlen + 2]);
    ghost var goal := StreamBytes([], blocks, rest, tail);
    StreamLongEnough(rest, [], blocks, tail);
    var s := new State(out, outbase, outlen, input, start, inlen);
    ok := s.Run(blocks, tail, goal);
  }

  /** A block, kind by kind. */
  lemma BodyParts(b: BlockDesc, out: seq<byte>)
    requires BlockOk(b, out)
    ensures b.StoredBlock? ==> Kind(b) == 0 && |b.data| < 0x10000 && AfterBlock(b, out) == out + b.data
    ensures b.StoredBlock? ==> BlockBody(b, out) == StoredCode(b.pad, b.data)
    ensures !b.StoredBlock? ==> AfterBlock(b, out) == Expand(out, b.items)
    ensures b.FixedBlock? ==> Kind(b) == 1 && CompressedOk(b.items, FixedLit(), FixedDist(), out)
    ensures b.FixedBlock? ==> BlockBody(b, out) == CompressedCode(b.items, FixedLit(), FixedDist())
    ensures b.DynamicBlock? ==> Kind(b) == 2 && HeaderOk(b.h) && CompressedOk(b.items, b.h.Lit(), b.h.Dist(), out)
    ensures b.DynamicBlock? ==> BlockBody(b, out) == HeaderCode(b.h) + CompressedCode(b.items, b.h.Lit(), b.h.Dist())
  {
    hide StoredCode, HeaderOk, HeaderCode, CompressedCode, Expand, FixedLit, FixedDist;
  }

  /** What the stream says about its first block. */
  lemma NextBlock(rest: seq<bool>, out: seq<byte>, blocks: seq<BlockDesc>, tail: seq<bool>)
    requires StreamOk(rest, out, blocks, tail) && |tail| >= 16
    ensures blocks != [] && BlockOk(blocks[0], out) && PadOk(blocks[0], |rest|)
    ensures var code := BlockCode(blocks[0], |blocks| == 1, out);
            var after := AfterBlock(blocks[0], out);
            && code <= rest && rest == code + rest[|code|..] && |rest[|code|..]| >= 16
            && |after| <= |StreamBytes(out, blocks, rest, tail)|
            && (if |blocks| == 1 then after == StreamBytes(out, blocks, rest, tail)
                else StreamOk(rest[|code|..], after, blocks[1..], tail)
                     && StreamBytes(after, blocks[1..], rest[|code|..], tail) == StreamBytes(out, blocks, rest, tail))
  {
    hide BlockCode, BlockOk, AfterBlock, PadOk;
    if |blocks| > 1 {
      var code := BlockCode(blocks[0], false, out);
      StreamLongEnough(rest[|code|..], AfterBlock(blocks[0], out), blocks[1..], tail);
    }
  }

  lemma {:induction false} StreamLongEnough(rest: seq<bool>, out: seq<byte>, blocks: seq<BlockDesc>, tail: seq<bool>)
    requires StreamOk(rest, out, blocks, tail)
    ensures |rest| >= |tail|
    decreases |blocks|
  {
    hide BlockCode, BlockOk, AfterBlock, PadOk;
    if |blocks| > 1 {
      StreamLongEnough(rest[|BlockCode(blocks[0], false, out)|..], AfterBlock(blocks[0], out), blocks[1..], tail);
    }
  }
}
