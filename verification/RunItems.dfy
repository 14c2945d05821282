/** What the run-length writer writes is a block in the fixed codes, and the block means the bytes. */
module RunItems {
  import opened Bits
  import opened BitWriter
  import opened Huffman
  import S = Symbols
  import opened Blocks

  type Items = seq<S.Item>

  // ---------- the codes agree ----------

  lemma FixedCodeValue(v: nat)
    requires v < 288
    ensures FixedLit()[v] == FixedLength(v)
    ensures CodeOf(FixedLit(), v)
         == if v < 144 then 0x30 + v else if v < 256 then 0x190 + (v - 144) else if v < 280 then v - 256
           else 0xc0 + (v - 280)
  {
    var lens := FixedLit();
    assert lens[v] == FixedLength(v);
    FixedCounts(v);
    FixedFirstCodes();
    CodeParts(lens, v, FixedLength(v));
    hide FixedLit, Count, FirstCode, CodeOf;
  }

  lemma CodeParts(lens: seq<nat>, v: nat, l: nat)
    requires v < |lens| && lens[v] == l
    ensures CodeOf(lens, v) == FirstCode(lens, l) + Count(lens, l, v)
  {
    hide FirstCode, Count;
  }

  /** The arithmetic of `literal` gives the canonical codes of the fixed code lengths. */
  lemma FixedCodeIsCanonical(v: nat)
    requires v < 288
    ensures HasCode(FixedLit(), v) && FixedCode(v) == CodeBits(FixedLit(), v)
  {
    FixedCodeValue(v);
    hide FixedLit, CodeOf, Msb;
  }

  lemma DistanceOneIsCanonical()
    ensures HasCode(FixedDist(), 0) && DistanceOne() == CodeBits(FixedDist(), 0)
  {
    FixedFirstCodes();
    assert CodeOf(FixedDist(), 0) == 0;
    ZeroBits(5);
    hide Lsb, Msb, FirstCode, FixedDist;
  }

  lemma {:induction false} ZeroBits(n: nat)
    ensures forall i :: 0 <= i < n ==> !Lsb(0, n)[i] && !Msb(0, n)[i]
    ensures Lsb(0, n) == Msb(0, n)
  {
    if n != 0 { ZeroBits(n - 1); }
  }

  // ---------- one run ----------

  function Literals(b: byte, k: nat): (items: Items)
    ensures |items| == k
  {
    seq(k, _ => S.Literal(b))
  }

  /** Length symbol `code` with `extra` extra bits, at distance 1. */
  function LengthItem(code: nat, extra: nat, len: nat): S.Item
    requires code >= 257
  {
    S.Copy(code - 257 + Shifted(len, extra), len % Pow2(extra), 0, 0)
  }

  function Repetition(b: byte, r: nat): Items {
    if r >= 3 then [LengthItem(Class(r).0, Class(r).1, r - Class(r).2)] else Literals(b, r)
  }

  /** The items a run is written as. */
  function ItemsOfRun(run: Run): Items {
    [S.Literal(run.b)] + Repetition(run.b, if run.n > 0 then run.n - 1 else 0)
  }

  ghost predicate Good(items: Items) { S.ItemsOk(items, FixedLit(), FixedDist()) }

  function Code(items: Items): seq<bool>
    requires Good(items)
  {
    S.ItemsCode(items, FixedLit(), FixedDist())
  }

  lemma {:induction false} CodeConcat(a: Items, b: Items)
    requires Good(a) && Good(b)
    ensures Good(a + b) && Code(a + b) == Code(a) + Code(b)
    decreases |a|
  {
    hide S.ItemOk, S.ItemCode, FixedLit, FixedDist;
    assert Good(a + b);
    if a == [] {
      assert a + b == b;
    } else {
      CodeConcat(a[1..], b);
      assert (a + b)[1..] == a[1..] + b;
    }
  }

  lemma CodeOfOne(item: S.Item)
    requires S.ItemOk(item, FixedLit(), FixedDist())
    ensures Good([item]) && Code([item]) == S.ItemCode(item, FixedLit(), FixedDist())
  {
    hide S.ItemOk, S.ItemCode, FixedLit, FixedDist;
    assert [item][1..] == [];
    assert Good([item][1..]) && S.ItemsCode([item][1..], FixedLit(), FixedDist()) == [];
  }

  lemma LiteralCode(b: byte)
    ensures Good([S.Literal(b)]) && Code([S.Literal(b)]) == FixedCode(b)
  {
    FixedCodeIsCanonical(b);
    CodeOfOne(S.Literal(b));
    hide FixedCode, CodeBits, FixedLit, FixedDist;
  }

  lemma {:induction false} LiteralsCode(b: byte, k: nat)
    ensures Good(Literals(b, k)) && Code(Literals(b, k)) == RepeatCode(b, k)
  {
    if k != 0 {
      LiteralsCode(b, k - 1);
      LiteralCode(b);
      hide FixedCode, FixedLit, FixedDist, Good, Code;
      assert Literals(b, k) == Literals(b, k - 1) + [S.Literal(b)];
      CodeConcat(Literals(b, k - 1), [S.Literal(b)]);
    }
  }

  /** A length symbol the writer uses: in range, with that many extra bits, and meaning that length. */
  ghost predicate Fits(code: nat, extra: nat, len: nat, r: nat) {
    && 257 <= code && code + Shifted(len, extra) < 280
    && S.LenBits(code - 257 + Shifted(len, extra)) == extra
    && S.LenBase(code - 257 + Shifted(len, extra)) + len % Pow2(extra) == r
  }

  lemma ShiftValue(len: nat)
    ensures Shifted(len, 0) == len && Shifted(len, 1) == len / 2 && Shifted(len, 2) == len / 4
    ensures Shifted(len, 3) == len / 8 && Shifted(len, 4) == len / 16
  {
    assert Shifted(len, 2) == Shifted(len / 2, 1) == len / 4;
    assert Shifted(len, 3) == Shifted(len / 2, 2) == Shifted(len / 4, 1) == len / 8;
    assert Shifted(len, 4) == Shifted(len / 2, 3) == Shifted(len / 4, 2) == Shifted(len / 8, 1) == len / 16;
  }

  /** The entries of one class in the length tables. */
  ghost predicate ClassEntry(sym: nat, extra: nat, base: nat, q: nat) {
    sym < 29 && S.LenBits(sym) == extra && S.LenBase(sym) == base + Pow2(extra) * q
  }

  lemma LongTables(q: nat)
    requires q <= 3
    ensures q <= 2 ==> ClassEntry(20 + q, 4, 67, q)
    ensures ClassEntry(16 + q, 3, 35, q)
  {
    S.SmallPowersOfTwo();
    hide Pow2;
  }

  lemma ShortTables(q: nat)
    requires q <= 7
    ensures q <= 3 ==> ClassEntry(12 + q, 2, 19, q) && ClassEntry(8 + q, 1, 11, q)
    ensures ClassEntry(q, 0, 3, q)
  {
    S.SmallPowersOfTwo();
    hide Pow2;
  }

  lemma EntryFits(code: nat, extra: nat, base: nat, r: nat, p: nat, q: nat)
    requires base <= r && 257 <= code && code + q < 280 && p == Pow2(extra) && q == Shifted(r - base, extra)
    requires ClassEntry(code - 257 + q, extra, base, q) && r - base == p * q + (r - base) % p
    ensures Fits(code, extra, r - base, r)
  {
    hide Pow2, Shifted, S.LenBits, S.LenBase;
  }

  lemma LongFits(r: nat)
    requires 35 <= r < MAX_RUN
    ensures r >= 67 ==> Fits(277, 4, r - 67, r)
    ensures r < 67 ==> Fits(273, 3, r - 35, r)
  {
    S.SmallPowersOfTwo();
    hide Pow2, Shifted, ClassEntry, Fits;
    if r >= 67 {
      ShiftValue(r - 67);
      LongTables((r - 67) / 16);
      EntryFits(277, 4, 67, r, 16, (r - 67) / 16);
    } else {
      ShiftValue(r - 35);
      LongTables((r - 35) / 8);
      EntryFits(273, 3, 35, r, 8, (r - 35) / 8);
    }
  }

  lemma ShortFits(r: nat)
    requires 3 <= r < 35
    ensures r >= 19 ==> Fits(269, 2, r - 19, r)
    ensures 11 <= r < 19 ==> Fits(265, 1, r - 11, r)
    ensures r < 11 ==> Fits(257, 0, r - 3, r)
  {
    S.SmallPowersOfTwo();
    hide Pow2, Shifted, ClassEntry, Fits;
    if r >= 19 {
      ShiftValue(r - 19);
      ShortTables((r - 19) / 4);
      EntryFits(269, 2, 19, r, 4, (r - 19) / 4);
    } else if r >= 11 {
      ShiftValue(r - 11);
      ShortTables((r - 11) / 2);
      EntryFits(265, 1, 11, r, 2, (r - 11) / 2);
    } else {
      ShiftValue(r - 3);
      ShortTables(r - 3);
      EntryFits(257, 0, 3, r, 1, r - 3);
    }
  }

  lemma ClassFits(r: nat)
    requires 3 <= r < MAX_RUN
    ensures Fits(Class(r).0, Class(r).1, r - Class(r).2, r)
  {
    hide Fits;
    if r >= 35 {
      LongFits(r);
    } else {
      ShortFits(r);
    }
  }

  /** A copy at distance 1, in the fixed codes. */
  lemma CopyCode(sym: nat, lextra: nat, extra: nat)
    requires 257 <= sym < 280 && S.LenBits(sym - 257) == extra && lextra < Pow2(extra)
    ensures S.ItemOk(S.Copy(sym - 257, lextra, 0, 0), FixedLit(), FixedDist())
    ensures S.ItemCode(S.Copy(sym - 257, lextra, 0, 0), FixedLit(), FixedDist())
         == FixedCode(sym) + (Lsb(lextra, extra) + (DistanceOne() + Lsb(0, 0)))
  {
    FixedCodeIsCanonical(sym);
    DistanceOneIsCanonical();
    assert S.DistBits(0) == 0 && Pow2(0) == 1;
    hide Pow2, Lsb, FixedCode, CodeBits, FixedLit, FixedDist, S.LenBits, S.DistBits, DistanceOne, HasCode;
  }

  lemma LengthCodeParts(code: nat, extra: nat, len: nat)
    ensures LengthCode(code, extra, len)
         == FixedCode(code + Shifted(len, extra)) + (Lsb(len % Pow2(extra), extra) + (DistanceOne() + Lsb(0, 0)))
  {
    S.LsbOfMod(len, extra);
    assert Lsb(0, 0) == [];
    hide Pow2, Lsb, FixedCode, Shifted, DistanceOne;
  }

  lemma LengthItemCode(code: nat, extra: nat, len: nat, r: nat)
    requires Fits(code, extra, len, r)
    ensures Good([LengthItem(code, extra, len)]) && Code([LengthItem(code, extra, len)]) == LengthCode(code, extra, len)
  {
    var item := LengthItem(code, extra, len);
    hide Good, Code, LengthCode, FixedCode, Lsb, DistanceOne, Shifted, Pow2, S.ItemOk, S.ItemCode, S.LenBits, S.LenBase;
    CopyCode(code + Shifted(len, extra), len % Pow2(extra), extra);
    LengthCodeParts(code, extra, len);
    assert S.ItemOk(item, FixedLit(), FixedDist()) &&
           S.ItemCode(item, FixedLit(), FixedDist()) == LengthCode(code, extra, len);
    hide *;
    CodeOfOne(item);
  }

  lemma RepetitionIsItems(b: byte, r: nat)
    requires r < MAX_RUN
    ensures Good(Repetition(b, r)) && Code(Repetition(b, r)) == RepetitionCode(b, r)
  {
    if r >= 3 {
      ClassFits(r);
      LengthItemCode(Class(r).0, Class(r).1, r - Class(r).2, r);
    } else {
      LiteralsCode(b, r);
    }
    hide Class, Good, Code, LengthItem, LengthCode, Literals, RepeatCode;
  }

  lemma RunIsItemsFrom(b: byte, first: Items, more: Items, r: nat)
    requires r < MAX_RUN && first == [S.Literal(b)] && more == Repetition(b, r)
    ensures Good(first + more) && Code(first + more) == FixedCode(b) + RepetitionCode(b, r)
  {
    hide *;
    LiteralCode(b);
    RepetitionIsItems(b, r);
    CodeConcat(first, more);
  }

  lemma RunParts(run: Run)
    requires run.n > 0
    ensures ItemsOfRun(run) == [S.Literal(run.b)] + Repetition(run.b, run.n - 1)
    ensures RunCode(run) == FixedCode(run.b) + RepetitionCode(run.b, run.n - 1)
  {
    hide FixedCode, Repetition, RepetitionCode;
  }

  /** The writer's code for a run is the code of the run's items. */
  lemma RunIsItems(run: Run)
    requires 0 < run.n <= MAX_RUN
    ensures Good(ItemsOfRun(run)) && Code(ItemsOfRun(run)) == RunCode(run)
  {
    RunParts(run);
    hide *;
    RunIsItemsFrom(run.b, [S.Literal(run.b)], Repetition(run.b, run.n - 1), run.n - 1);
  }

  // ---------- what the items mean ----------

  lemma {:induction false} ExpandConcat(out: seq<byte>, a: Items, b: Items)
    requires S.AllReach(out, a) && S.AllReach(S.Expand(out, a), b)
    ensures S.AllReach(out, a + b) && S.Expand(out, a + b) == S.Expand(S.Expand(out, a), b)
    decreases |a|
  {
    hide S.Apply, S.Reaches;
    if a == [] {
      assert a + b == b;
    } else {
      assert (a + b)[1..] == a[1..] + b;
      ExpandConcat(S.Apply(out, a[0]), a[1..], b);
    }
  }

  lemma ExpandOne(out: seq<byte>, item: S.Item)
    requires S.Reaches(out, item)
    ensures S.AllReach(out, [item]) && S.Expand(out, [item]) == S.Apply(out, item)
  {
    hide S.Apply, S.Reaches;
    assert [item][1..] == [];
  }

  lemma {:induction false} CopyRepeats(out: seq<byte>, b: byte, n: nat)
    requires |out| > 0 && out[|out| - 1] == b
    ensures S.CopyBack(out, 1, n) == out + Repeat(b, n)
    decreases n
  {
    if n != 0 {
      CopyRepeats(out + [b], b, n - 1);
      assert out + [b] + Repeat(b, n - 1) == out + Repeat(b, n);
    }
  }

  lemma {:induction false} LiteralsExpand(out: seq<byte>, b: byte, k: nat)
    ensures S.AllReach(out, Literals(b, k)) && S.Expand(out, Literals(b, k)) == out + Repeat(b, k)
  {
    if k != 0 {
      LiteralsExpand(out, b, k - 1);
      assert Literals(b, k) == Literals(b, k - 1) + [S.Literal(b)];
      ExpandOne(out + Repeat(b, k - 1), S.Literal(b));
      ExpandConcat(out, Literals(b, k - 1), [S.Literal(b)]);
      assert out + Repeat(b, k - 1) + [b] == out + Repeat(b, k);
      hide Literals, Repeat, S.AllReach, S.Expand;
    }
  }

  lemma ItemApplies(out: seq<byte>, item: S.Item, r: nat)
    requires |out| > 0 && item.Copy? && item.lsym < 29 && item.dsym == item.dextra == 0
    requires S.LenBase(item.lsym) + item.lextra == r
    ensures S.Reaches(out, item) && S.Apply(out, item) == S.CopyBack(out, 1, r)
  {
    assert S.DistBase(0) == 1;
    hide S.LenBase, S.CopyBack;
  }

  lemma LengthItemExpands(out: seq<byte>, b: byte, code: nat, extra: nat, len: nat, r: nat)
    requires Fits(code, extra, len, r) && |out| > 0 && out[|out| - 1] == b
    ensures S.AllReach(out, [LengthItem(code, extra, len)]) &&
            S.Expand(out, [LengthItem(code, extra, len)]) == out + Repeat(b, r)
  {
    var item := LengthItem(code, extra, len);
    CopyRepeats(out, b, r);
    ItemApplies(out, item, r);
    hide *;
    ExpandOne(out, item);
  }

  lemma LongRepetition(out: seq<byte>, b: byte, r: nat, code: nat, extra: nat, len: nat)
    requires 3 <= r && |out| > 0 && out[|out| - 1] == b && Fits(code, extra, len, r)
    requires Repetition(b, r) == [LengthItem(code, extra, len)]
    ensures S.AllReach(out, Repetition(b, r)) && S.Expand(out, Repetition(b, r)) == out + Repeat(b, r)
  {
    hide *;
    LengthItemExpands(out, b, code, extra, len, r);
  }

  lemma RepetitionExpands(out: seq<byte>, b: byte, r: nat)
    requires r < MAX_RUN && |out| > 0 && out[|out| - 1] == b
    ensures S.AllReach(out, Repetition(b, r)) && S.Expand(out, Repetition(b, r)) == out + Repeat(b, r)
  {
    hide Literals, Repeat, S.AllReach, S.Expand, LengthItem, Fits;
    if r >= 3 {
      ClassFits(r);
      LongRepetition(out, b, r, Class(r).0, Class(r).1, r - Class(r).2);
    } else {
      LiteralsExpand(out, b, r);
    }
  }

  /** The items of a run mean the run. */
  lemma RunExpands(out: seq<byte>, run: Run)
    requires 0 < run.n <= MAX_RUN
    ensures S.AllReach(out, ItemsOfRun(run)) && S.Expand(out, ItemsOfRun(run)) == out + Repeat(run.b, run.n)
  {
    var r, b := run.n - 1, run.b;
    ExpandOne(out, S.Literal(b));
    RepetitionExpands(out + [b], b, r);
    hide Repetition, S.AllReach, S.Expand;
    ExpandConcat(out, [S.Literal(b)], Repetition(b, r));
    assert out + [b] + Repeat(b, r) == out + Repeat(b, run.n);
  }

  // ---------- all runs ----------

  function ItemsOfRuns(runs: seq<Run>): Items {
    if runs == [] then [] else ItemsOfRuns(runs[..|runs| - 1]) + ItemsOfRun(runs[|runs| - 1])
  }

  /** The writer's code for its runs is a list of items in the fixed codes, and the items mean
      the bytes the runs stand for. */
  lemma {:induction false} RunsAreItems(runs: seq<Run>)
    requires Writable(runs)
    ensures Good(ItemsOfRuns(runs)) && Code(ItemsOfRuns(runs)) == RunsCode(runs)
    ensures S.AllReach([], ItemsOfRuns(runs)) && S.Expand([], ItemsOfRuns(runs)) == Unrun(runs)
  {
    if runs != [] {
      var most, last := runs[..|runs| - 1], runs[|runs| - 1];
      RunsAreItems(most);
      hide Good, Code, S.AllReach, S.Expand, ItemsOfRun, RunCode, Repeat;
      RunIsItems(last);
      CodeConcat(ItemsOfRuns(most), ItemsOfRun(last));
      RunExpands(Unrun(most), last);
      ExpandConcat([], ItemsOfRuns(most), ItemsOfRun(last));
    }
  }

  /** A byte takes nine bits or fewer. */
  lemma RunCodeSize(run: Run)
    requires 0 < run.n <= MAX_RUN
    ensures |RunCode(run)| <= 9 * run.n
  {
    var r := run.n - 1;
    if r < 3 {
      RepeatCodeSize(run.b, r);
    }
    hide Lsb, Msb, Shifted, RepeatCode, DistanceOne;
  }

  lemma {:induction false} RepeatCodeSize(b: nat, k: nat)
    ensures |RepeatCode(b, k)| <= 9 * k
  {
    if k != 0 { RepeatCodeSize(b, k - 1); }
  }

  lemma {:induction false} RunsCodeSize(runs: seq<Run>)
    requires Writable(runs)
    ensures |RunsCode(runs)| <= 9 * |Unrun(runs)|
  {
    if runs != [] {
      RunsCodeSize(runs[..|runs| - 1]);
      RunCodeSize(runs[|runs| - 1]);
      hide RunCode;
    }
  }
}
