/** The bit accumulator of the PNG writer, and the fixed Huffman codes it writes. */
module BitWriter {
  import opened Bits
  import opened Division
  import opened Crc

  // ---------- the sentinel accumulator ----------

  /** The bits waiting in the low-order `w` bits of the accumulator: above the lowest one bit,
      which only marks where they begin. */
  function Pending(b: nat, w: nat): (s: seq<bool>)
    ensures |s| < w || w == 0
  {
    if w == 0 then []
    else if b % 2 == 1 then Lsb(b / 2, w - 1)
    else Pending(b / 2, w - 1)
  }

  lemma {:induction false} NothingPending(w: nat)
    requires w > 0
    ensures Pending(Pow2(w - 1), w) == []
  {
    if w > 1 {
      NothingPending(w - 1);
      assert Pow2(w - 1) % 2 == 0 && Pow2(w - 1) / 2 == Pow2(w - 2);
    }
  }

  lemma {:induction false} LsbAppendBit(v: nat, n: nat, d: nat)
    requires v < Pow2(n) && d < 2
    ensures Lsb(v + Pow2(n) * d, n + 1) == Lsb(v, n) + [d == 1]
  {
    LsbSplit(v, d, n, 1);
    assert Lsb(d, 1) == [d == 1] + Lsb(d / 2, 0);
  }

  /** A bit shifted into an accumulator that is not full joins the waiting ones at the end. */
  lemma {:induction false} PushBit(b: nat, w: nat, d: nat)
    requires w > 1 && 0 < b < Pow2(w) && b % 2 == 0 && d < 2
    ensures Pending(b / 2 + Pow2(w - 1) * d, w) == Pending(b, w) + [d == 1]
  {
    var h := b / 2;
    var m := Pow2(w - 2) * d;
    assert Pow2(w - 1) == 2 * Pow2(w - 2);
    assert Pow2(w - 1) * d == 2 * m;
    assert (h + 2 * m) / 2 == h / 2 + m && (h + 2 * m) % 2 == h % 2;
    if h % 2 == 1 {
      LsbAppendBit(h / 2, w - 2, d);
    } else {
      PushBit(h, w - 1, d);
    }
  }

  /** The bit that `putbitsr` writes when `n` bits remain behind it. */
  lemma NextHighBit(v: nat, bitcount: nat, n: nat)
    requires n < bitcount
    ensures Lsb(Shifted(v, n), 1) == [Msb(v, bitcount)[bitcount - n - 1]]
  {
    MsbIsReversedLsb(v, bitcount, n);
    LsbAt(v, bitcount, n);
    LowBit(Shifted(v, n));
    hide Msb, Lsb, Shifted;
  }

  lemma LowBit(v: nat)
    ensures Lsb(v, 1) == [v % 2 == 1]
  {
    assert Lsb(v, 1) == [v % 2 == 1] + Lsb(v / 2, 0);
  }

  lemma PendingWhenFull(b: nat)
    ensures b % 2 == 1 ==> Pending(b, 8) == Lsb(b / 2, 7)
  {
    hide Lsb;
  }

  lemma PowersOfEight()
    ensures Pow2(7) == 128 && Pow2(8) == 256
  {
    assert Pow2(4) == 16;
    Pow2Add(4, 3);
    Pow2Add(4, 4);
  }

  /** The bit that fills a byte: the byte goes out, and the bare sentinel stays. */
  lemma ByteFull(out: seq<byte>, before: nat, d: nat, full: nat)
    requires 0 < before < 256 && before % 2 == 1 && d < 2 && full == before / 2 + d * 128
    ensures full < 256 && BitsOf(out + [full]) + Pending(0x80, 8) == (BitsOf(out) + Pending(before, 8)) + [d == 1]
  {
    PowersOfEight();
    PendingWhenFull(before);
    NothingPending(8);
    hide Lsb, Pending, BitsOf, Pow2;
    LsbAppendBit(before / 2, 7, d);
    BitsOfAppend(out, [full]);
    BitsOfOne(full);
  }

  // ---------- the codes ----------

  /** The codes of section 3.2.6 of RFC 1951, in the arithmetic of `literal`. */
  function FixedCode(v: nat): seq<bool> {
    if v < 144 then Msb(0x030 + v, 8)
    else if v < 256 then Msb(0x190 + (v - 144), 9)
    else if v < 280 then Msb(v - 256, 7)
    else Msb(0x0c0 + (v - 280), 8)
  }

  function RepeatCode(prev: nat, k: nat): seq<bool> {
    if k == 0 then [] else RepeatCode(prev, k - 1) + FixedCode(prev)
  }

  /** The five zero bits of distance 1. */
  function DistanceOne(): (s: seq<bool>)
    ensures |s| == 5
  {
    Lsb(0, 5)
  }

  /** A length symbol with its extra bits, and the distance. */
  function LengthCode(code: nat, extra: nat, len: nat): seq<bool> {
    FixedCode(code + Shifted(len, extra)) + Lsb(len, extra) + DistanceOne()
  }

  /** A run of equal bytes. */
  datatype Run = Run(b: byte, n: nat)

  /** The length symbols that cover `r` repetitions: the first of them, their extra bits, and
      the repetitions the first of them stands for. */
  function Class(r: nat): (c: (nat, nat, nat))
    requires r >= 3
    ensures c.2 <= r
  {
    if r >= 67 then (277, 4, 67)
    else if r >= 35 then (273, 3, 35)
    else if r >= 19 then (269, 2, 19)
    else if r >= 11 then (265, 1, 11)
    else (257, 0, 3)
  }

  /** What follows the first byte of a run: `r` repetitions of it. */
  function RepetitionCode(b: byte, r: nat): seq<bool> {
    if r >= 3 then
      LengthCode(Class(r).0, Class(r).1, r - Class(r).2)
    else RepeatCode(b, r)
  }

  /** What one run is written as. */
  function RunCode(run: Run): seq<bool> {
    FixedCode(run.b) + RepetitionCode(run.b, if run.n > 0 then run.n - 1 else 0)
  }

  function RunsCode(runs: seq<Run>): seq<bool> {
    if runs == [] then [] else RunsCode(runs[..|runs| - 1]) + RunCode(runs[|runs| - 1])
  }

  function Repeat(b: byte, n: nat): (s: seq<byte>)
    ensures |s| == n
  {
    seq(n, _ => b)
  }

  /** The bytes the runs stand for. */
  function Unrun(runs: seq<Run>): seq<byte> {
    if runs == [] then [] else Unrun(runs[..|runs| - 1]) + Repeat(runs[|runs| - 1].b, runs[|runs| - 1].n)
  }

  /** Runs that the writer makes: not empty, short enough for a seven-bit length symbol, and ended only
      by another byte or by that bound. */
  ghost predicate Writable(runs: seq<Run>) {
    && (forall i :: 0 <= i < |runs| ==> 0 < runs[i].n <= 115)
    && forall i :: 0 <= i < |runs| - 1 ==> runs[i].b != runs[i + 1].b || runs[i].n == 115
  }

  lemma LongerRun(runs: seq<Run>, run: Run)
    requires Writable(runs + [run]) && run.n < 115
    ensures Writable(runs + [Run(run.b, run.n + 1)])
  {
    var was, now := runs + [run], runs + [Run(run.b, run.n + 1)];
    assert forall i :: 0 <= i < |runs| ==> was[i] == now[i];
    assert now[|runs|].b == was[|runs|].b;
  }

  lemma NewRun(runs: seq<Run>, b: byte)
    requires Writable(runs) && (runs != [] ==> runs[|runs| - 1].b != b || runs[|runs| - 1].n == 115)
    ensures Writable(runs + [Run(b, 1)])
  {}

  function ByteSum(data: seq<byte>): nat { if data == [] then 0 else data[0] + ByteSum(data[1..]) }

  /** Every byte as often as there are bytes from it to the end. */
  function WeightedSum(data: seq<byte>): nat {
    if data == [] then 0 else |data| * data[0] + WeightedSum(data[1..])
  }

  /** Section 8.2 of RFC 1950: one and the sum of the bytes, and the sum of these sums. */
  function Adler32(data: seq<byte>): (a: nat)
    ensures a < 0x1_0000_0000
  {
    (|data| + WeightedSum(data)) % 65521 * 0x10000 + (1 + ByteSum(data)) % 65521
  }

  lemma {:induction false} SumsAppend(data: seq<byte>, v: byte)
    ensures ByteSum(data + [v]) == ByteSum(data) + v
    ensures WeightedSum(data + [v]) == WeightedSum(data) + ByteSum(data) + v
  {
    if data == [] {
      assert [v][1..] == [];
    } else {
      SumsAppend(data[1..], v);
      assert (data + [v])[1..] == data[1..] + [v];
      OneMoreTime(|data|, data[0]);
    }
  }

  lemma OneMoreTime(n: nat, v: nat)
    ensures (n + 1) * v == n * v + v
  {}

  lemma ModSum(a: nat, b: nat, m: nat)
    requires m > 0
    ensures (a % m + b) % m == (a + b) % m
  {
    var q := a / m;
    ModUnique(a + b, m, q + (a % m + b) / m, (a % m + b) % m);
  }

  lemma SumsNext(data: seq<byte>, v: byte)
    ensures var (a, b) := AdlerSums(data);
            AdlerSums(data + [v]) == ((a + v) % 65521, (b + (a + v) % 65521) % 65521)
  {
    assert (data + [v])[..|data|] == data;
  }

  lemma BothSums(s: nat, t: nat, v: nat)
    ensures (s % 65521 + v) % 65521 == (s + v) % 65521
    ensures (t % 65521 + (s + v) % 65521) % 65521 == (t + (s + v)) % 65521
  {
    hide *;
    ModSum(s, v, 65521);
    ModSum(t, (s + v) % 65521, 65521);
    ModSum(s + v, t, 65521);
  }

  lemma {:induction false} AdlerClosed(data: seq<byte>)
    ensures AdlerSums(data) == ((1 + ByteSum(data)) % 65521, (|data| + WeightedSum(data)) % 65521)
    decreases |data|
  {
    if data != [] {
      var most, v := data[..|data| - 1], data[|data| - 1];
      assert data == most + [v];
      hide *;
      AdlerClosed(most);
      SumsAppend(most, v);
      SumsNext(most, v);
      BothSums(1 + ByteSum(most), |most| + WeightedSum(most), v);
    }
  }

  /** The sums as the writer keeps them, byte by byte. */
  function AdlerSums(data: seq<byte>): (s: (nat, nat))
    ensures s.0 < 65521 && s.1 < 65521
  {
    if data == [] then (1, 0)
    else
      var (a, b) := AdlerSums(data[..|data| - 1]);
      var a' := (a + data[|data| - 1]) % 65521;
      (a', (b + a') % 65521)
  }

  const NO_BYTE: nat := 0xffff
  const MAX_RUN: nat := 115

  /** The writer's state; `out` is the file written so far. */
  class Save {
    var adler: nat
    var bits: nat
    var prev: nat
    var runlen: nat
    var crc: bv32
    var out: seq<byte>
    /** Where the bytes begin that the check value is of. */
    ghost var mark: nat
    /** The bytes handed to encodeByte so far. */
    ghost var data: seq<byte>
    /** The finished runs. */
    ghost var runs: seq<Run>

    constructor ()
      ensures out == [] && bits == 0x80 && prev == NO_BYTE && runlen == 0 && adler == 1 && data == [] && runs == []
      ensures Checked()
    {
      out, bits, prev, runlen, adler, data, runs := [], 0x80, NO_BYTE, 0, 1, [], [];
      crc, mark := START, 0;
    }

    /** The register has divided out the bytes since `mark`. */
    ghost predicate Checked()
      reads this`out, this`crc, this`mark
    {
      mark <= |out| && crc == Register(START, out[mark..])
    }

    ghost predicate Valid()
      reads this`bits
    {
      0 < bits < 256
    }

    /** All bits written, the waiting ones included. */
    ghost function Stream(): seq<bool>
      reads this`out, this`bits
    {
      BitsOf(out) + Pending(bits, 8)
    }

    method Put(v: byte)
      requires Checked()
      modifies this`out, this`crc
      ensures out == old(out) + [v] && Checked()
    {
      hide PutStep, Register, ByteStep, Word;
      PutDivides(crc, v);
      RegisterAppend(START, out[mark..], v);
      crc := PutStep(crc, Word(v));
      out := out + [v];
      assert out[mark..] == old(out[mark..]) + [v];
    }

    method Put32(v: nat)
      requires v < 0x1_0000_0000 && Checked()
      modifies this`out, this`crc
      ensures out == old(out) + BigEndian(v) && Checked()
    {
      Put(v / 0x1000000);
      Put(v / 0x10000 % 0x100);
      Put(v / 0x100 % 0x100);
      Put(v % 0x100);
    }

    method PutBits(data: nat, bitcount: nat)
      requires Valid() && Checked()
      modifies this`out, this`crc, this`bits
      ensures Valid() && Stream() == old(Stream()) + Lsb(data, bitcount)
      ensures old(out) <= out && Checked()
    {
      var v, n := data, bitcount;
      assert Lsb(data, bitcount) == [] + Lsb(v, n);
      ghost var done: seq<bool> := [];
      while n > 0
        invariant Valid() && Checked() && old(out) <= out
        invariant Stream() == old(Stream()) + done
        invariant done + Lsb(v, n) == Lsb(data, bitcount)
      {
        PutBit(v % 2);
        assert done + Lsb(v, n) == (done + [v % 2 == 1]) + Lsb(v / 2, n - 1);
        done := done + [v % 2 == 1];
        v, n := v / 2, n - 1;
      }
      assert Lsb(v, 0) == [];
    }

    /** One turn of the loop in putbits. */
    method PutBit(d: nat)
      requires Valid() && Checked() && d < 2
      modifies this`out, this`crc, this`bits
      ensures Valid() && Stream() == old(Stream()) + [d == 1]
      ensures old(out) <= out && Checked()
    {
      hide Checked, Lsb, Pending, BitsOf, Pow2;
      var before := bits;
      bits := bits / 2 + d * 128;
      if before % 2 == 1 {
        ByteFull(out, before, d, bits);
        Put(bits);
        bits := 0x80;
      } else {
        PowersOfEight();
        PushBit(before, 8, d);
        assert BitsOf(out) + (Pending(before, 8) + [d == 1]) == (BitsOf(out) + Pending(before, 8)) + [d == 1];
      }
    }

    method PutBitsReversed(data: nat, bitcount: nat)
      requires Valid() && Checked()
      modifies this`out, this`crc, this`bits
      ensures Valid() && Stream() == old(Stream()) + Msb(data, bitcount)
      ensures old(out) <= out && Checked()
    {
      var n := bitcount;
      ghost var code := Msb(data, bitcount);
      hide *;
      while n > 0
        invariant 0 <= n <= bitcount && Valid() && Checked() && old(out) <= out
        invariant Stream() == old(Stream()) + code[..bitcount - n]
      {
        n := n - 1;
        ghost var before := code[..bitcount - n - 1];
        NextHighBit(data, bitcount, n);
        PutBits(Shifted(data, n), 1);
        assert code[..bitcount - n] == before + [code[bitcount - n - 1]];
      }
      assert code[..bitcount] == code;
    }

    method Literal(v: nat)
      requires Valid() && Checked() && v < 288
      modifies this`out, this`crc, this`bits
      ensures Valid() && Stream() == old(Stream()) + FixedCode(v)
      ensures old(out) <= out && Checked()
    {
      if v < 144 {
        PutBitsReversed(0x030 + v - 0, 8);
      } else if v < 256 {
        PutBitsReversed(0x190 + v - 144, 9);
      } else if v < 280 {
        PutBitsReversed(0x000 + v - 256, 7);
      } else {
        PutBitsReversed(0x0c0 + v - 280, 8);
      }
    }

    method EncodeLen(code: nat, extra: nat, len: nat)
      requires Valid() && Checked() && code + Shifted(len, extra) < 288
      modifies this`out, this`crc, this`bits
      ensures Valid() && Stream() == old(Stream()) + LengthCode(code, extra, len)
      ensures old(out) <= out && Checked()
    {
      hide Checked, FixedCode, Pending, BitsOf, Lsb, Shifted;
      Literal(code + Shifted(len, extra));
      PutBits(len, extra);
      PutBits(0, 5);
    }

    /** The loop for a run too short for a length symbol. */
    method RepeatLast()
      requires Valid() && Checked() && prev < 256
      modifies this`out, this`crc, this`bits, this`runlen
      ensures Valid() && Stream() == old(Stream()) + RepeatCode(prev, old(runlen))
      ensures old(out) <= out && Checked()
    {
      hide Checked, FixedCode, Pending, BitsOf;
      ghost var r, start := runlen, Stream();
      assert start + RepeatCode(prev, 0) == start;
      while runlen > 0
        invariant 0 <= runlen <= r && Valid() && Checked() && old(out) <= out
        invariant Stream() == start + RepeatCode(prev, r - runlen)
      {
        runlen := runlen - 1;
        ghost var before := RepeatCode(prev, r - runlen - 1);
        Literal(prev);
        assert Stream() == start + (before + FixedCode(prev));
      }
    }

    /** Writes the current run. The counting-down loop leaves the counter wrapped around. */
    method EndRun()
      requires Valid() && Checked() && prev < 256 && 0 < runlen <= MAX_RUN
      modifies this`out, this`crc, this`bits, this`runlen
      ensures Valid() && Stream() == old(Stream()) + RunCode(Run(prev, old(runlen)))
      ensures old(out) <= out && Checked()
    {
      hide Checked, FixedCode, LengthCode, Pending, BitsOf, Shifted, Lsb, RepeatCode, Stream;
      runlen := runlen - 1;
      Literal(prev);
      ShiftBounds(runlen);
      if runlen >= 67 {
        EncodeLen(277, 4, runlen - 67);
      } else if runlen >= 35 {
        EncodeLen(273, 3, runlen - 35);
      } else if runlen >= 19 {
        EncodeLen(269, 2, runlen - 19);
      } else if runlen >= 11 {
        EncodeLen(265, 1, runlen - 11);
      } else if runlen >= 3 {
        EncodeLen(257, 0, runlen - 3);
      } else {
        RepeatLast();
        runlen := 0xffff_ffff;
      }
    }

    method UpdateAdler(v: byte)
      requires adler == PackedSums(data)
      modifies this`adler
      ensures adler == PackedSums(data + [v])
    {
      assert (data + [v])[..|data|] == data;
      var s1, s2 := adler % 0x10000, adler / 0x10000 % 0x10000;
      assert (s1, s2) == AdlerSums(data);
      s1 := (s1 + v) % 65521;
      s2 := (s2 + s1) % 65521;
      adler := s2 * 0x10000 + s1;
    }

    /** Between calls of encodeByte: the finished runs are written, the current one is counted. */
    ghost predicate Encoding(base: seq<bool>)
      reads this
    {
      && Valid() && Checked()
      && Stream() == base + RunsCode(runs)
      && Writable(runs)
      && adler == PackedSums(data)
      && (runlen == 0 ==> prev == NO_BYTE && data == [] && runs == [])
      && (runlen > 0 ==> prev < 256 && runlen <= MAX_RUN && data == Unrun(runs) + Repeat(prev, runlen)
                         && Writable(runs + [Run(prev, runlen)]))
    }

    method EncodeByte(v: byte, ghost base: seq<bool>)
      requires Encoding(base)
      modifies this
      ensures Encoding(base) && runlen > 0 && mark == old(mark)
      ensures data == old(data) + [v]
      ensures old(out) <= out && Checked()
    {
      hide Checked, FixedCode, RunCode, Pending, BitsOf, RunsCode, Unrun, PackedSums, Writable;
      UpdateAdler(v);
      data := data + [v];
      if prev == v && runlen < MAX_RUN {
        LongerRun(runs, Run(prev, runlen));
        runlen := runlen + 1;
        assert Repeat(prev, runlen) == Repeat(prev, runlen - 1) + [v];
      } else {
        if runlen > 0 {
          ghost var run := Run(prev, runlen);
          EndRun();
          RunsAppend(runs, run);
          runs := runs + [run];
        }
        NewRun(runs, v);
        prev := v;
        runlen := 1;
        NoRuns();
        assert Repeat(v, 1) == [v];
        assert data == Unrun(runs) + [v];
      }
    }
  }

  function PackedSums(data: seq<byte>): (a: nat)
    ensures a < 0x1_0000_0000
  {
    AdlerSums(data).1 * 0x10000 + AdlerSums(data).0
  }

  lemma PackedIsAdler(data: seq<byte>)
    ensures PackedSums(data) == Adler32(data)
  {
    AdlerClosed(data);
    hide AdlerSums, ByteSum, WeightedSum;
  }

  lemma ShiftBounds(r: nat)
    requires r < MAX_RUN
    ensures r >= 67 ==> Shifted(r - 67, 4) <= 2
    ensures 35 <= r < 67 ==> Shifted(r - 35, 3) <= 3
    ensures 19 <= r < 35 ==> Shifted(r - 19, 2) <= 3
    ensures 11 <= r < 19 ==> Shifted(r - 11, 1) <= 3
    ensures 3 <= r < 11 ==> Shifted(r - 3, 0) <= 7
  {
    if r >= 67 {
      assert Shifted(r - 67, 4) == Shifted((r - 67) / 2, 3) == Shifted((r - 67) / 4, 2) == (r - 67) / 16;
    } else if r >= 35 {
      assert Shifted(r - 35, 3) == Shifted((r - 35) / 2, 2) == (r - 35) / 8;
    } else if r >= 19 {
      assert Shifted(r - 19, 2) == Shifted((r - 19) / 2, 1) == (r - 19) / 4;
    }
  }

  lemma NoRuns()
    ensures RunsCode([]) == [] && Unrun([]) == []
  {}

  lemma RunsAppend(runs: seq<Run>, r: Run)
    ensures RunsCode(runs + [r]) == RunsCode(runs) + RunCode(r)
    ensures Unrun(runs + [r]) == Unrun(runs) + Repeat(r.b, r.n)
  {
    assert (runs + [r])[..|runs|] == runs;
  }

  function BigEndian(v: nat): (s: seq<byte>)
    requires v < 0x1_0000_0000
    ensures |s| == 4
  {
    [v / 0x1000000, v / 0x10000 % 0x100, v / 0x100 % 0x100, v % 0x100]
  }
}
