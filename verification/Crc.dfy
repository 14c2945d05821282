/** The check value of chunks: a division of polynomials, by nibbles out of a table. */
module Crc {
  import opened Bits

  const POLYNOMIAL: bv32 := 0xedb8_8320

  /** One step of the division, lowest bit first, of section 3.4 of RFC 2083. */
  function BitStep(c: bv32): bv32 { if c & 1 == 1 then (c >> 1) ^ POLYNOMIAL else c >> 1 }

  function FourSteps(c: bv32): bv32 { BitStep(BitStep(BitStep(BitStep(c)))) }

  function Xor(a: bv32, b: bv32): bv32 { a ^ b }

  function High(c: bv32): bv32 { c >> 4 }

  function Low(c: bv32): bv32 { c & 15 }

  function EightSteps(c: bv32): bv32 { FourSteps(FourSteps(c)) }

  /** A byte enters the register and is divided out. */
  function ByteStep(c: bv32, v: byte): bv32 { EightSteps(Xor(c, Word(v))) }

  function Bits8(v: byte): bv8 { v as bv8 }

  function Wide(w: bv8): bv32 { w as bv32 }

  function Word(v: byte): bv32 { Wide(Bits8(v)) }

  function Register(c: bv32, data: seq<byte>): bv32 {
    if data == [] then c else ByteStep(Register(c, data[..|data| - 1]), data[|data| - 1])
  }

  lemma RegisterAppend(c: bv32, data: seq<byte>, v: byte)
    ensures Register(c, data + [v]) == ByteStep(Register(c, data), v)
  {
    assert (data + [v])[..|data|] == data;
    hide ByteStep;
  }

  /** What begin puts into the register. */
  const START: bv32 := 0xffff_ffff

  /** A byte with all its bits turned over. */
  function Complement(v: byte): byte { Number(Flipped(Bits8(v))) }

  function Number(w: bv8): byte { w as int }

  function Flipped(w: bv8): bv8 { w ^ 0xff }

  /** The data with its first 32 bits turned over. */
  function Complemented(data: seq<byte>): (s: seq<byte>)
    requires |data| >= 4
    ensures |s| == |data|
  {
    [Complement(data[0]), Complement(data[1]), Complement(data[2]), Complement(data[3])] + data[4..]
  }

  /** The check value of a chunk's type and data: the first 32 bits turned over, the remainder of the
      division taken, and turned over as well. */
  function Crc32(data: seq<byte>): (crc: nat)
    requires |data| >= 4
    ensures crc < 0x1_0000_0000
  {
    (0xffff_ffff - Register(0, Complemented(data))) as nat
  }

  /** crctable. */
  function TableEntry(i: bv32): bv32 {
    if i == 0 then 0 else if i == 1 then 0x1db71064 else if i == 2 then 0x3b6e20c8 else if i == 3 then 0x26d930ac
    else if i == 4 then 0x76dc4190 else if i == 5 then 0x6b6b51f4
    else if i == 6 then 0x4db26158 else if i == 7 then 0x5005713c
    else if i == 8 then 0xedb88320 else if i == 9 then 0xf00f9344
    else if i == 10 then 0xd6d6a3e8 else if i == 11 then 0xcb61b38c
    else if i == 12 then 0x9b64c2b0 else if i == 13 then 0x86d3d2d4 else if i == 14 then 0xa00ae278 else 0xbdbdf21c
  }

  /** The entries are the numbers below sixteen after four steps. */
  lemma TableIsDivision(i: bv32)
    requires i < 16
    ensures TableEntry(i) == FourSteps(i)
  {}

  lemma XorAssoc(a: bv32, b: bv32, c: bv32)
    ensures Xor(Xor(a, b), c) == Xor(a, Xor(b, c))
  {}

  lemma XorComm(a: bv32, b: bv32)
    ensures Xor(a, b) == Xor(b, a)
  {}

  lemma XorSelf(a: bv32)
    ensures Xor(a, a) == 0 && Xor(a, 0) == a
  {}

  lemma XorHalf(a: bv32, b: bv32)
    ensures Half(Xor(a, b)) == Xor(Half(a), Half(b))
  {}

  lemma XorOdd(a: bv32, b: bv32)
    ensures Odd(Xor(a, b)) <==> Odd(a) != Odd(b)
  {}

  function Half(c: bv32): bv32 { c >> 1 }

  predicate Odd(c: bv32) { c & 1 == 1 }

  lemma StepIs(c: bv32)
    ensures BitStep(c) == if Odd(c) then Xor(Half(c), POLYNOMIAL) else Half(c)
  {}

  lemma StepIsLinear(a: bv32, b: bv32)
    ensures BitStep(Xor(a, b)) == Xor(BitStep(a), BitStep(b))
  {
    hide *;
    var x, y, p := Half(a), Half(b), POLYNOMIAL;
    StepIs(a);
    StepIs(b);
    StepIs(Xor(a, b));
    XorHalf(a, b);
    XorOdd(a, b);
    XorAssoc(x, y, p);
    XorAssoc(x, p, y);
    XorComm(p, y);
    XorAssoc(Xor(x, y), p, p);
    XorAssoc(Xor(x, p), y, p);
    XorSelf(p);
    XorSelf(Xor(x, y));
  }

  lemma FourAreLinear(a: bv32, b: bv32)
    ensures FourSteps(Xor(a, b)) == Xor(FourSteps(a), FourSteps(b))
  {
    hide Xor, BitStep;
    StepIsLinear(a, b);
    StepIsLinear(BitStep(a), BitStep(b));
    StepIsLinear(BitStep(BitStep(a)), BitStep(BitStep(b)));
    StepIsLinear(BitStep(BitStep(BitStep(a))), BitStep(BitStep(BitStep(b))));
  }

  /** Above a clear nibble the steps only shift. */
  lemma HighSteps(c: bv32)
    requires c & 15 == 0
    ensures FourSteps(c) == c >> 4
  {
    assert c & 1 == 0 && (c >> 1) & 1 == 0 && (c >> 2) & 1 == 0 && (c >> 3) & 1 == 0;
    assert BitStep(c) == c >> 1;
    assert BitStep(c >> 1) == c >> 2;
    assert BitStep(c >> 2) == c >> 3;
    assert BitStep(c >> 3) == c >> 4;
  }

  lemma Nibbles(c: bv32)
    ensures c == Xor(c & 0xffff_fff0, Low(c)) && (c & 0xffff_fff0) & 15 == 0 && (c & 0xffff_fff0) >> 4 == High(c) &&
            Low(c) < 16
  {}

  /** Four steps of any register are one look into the table. */
  lemma NibbleStep(c: bv32)
    ensures FourSteps(c) == Xor(High(c), TableEntry(Low(c)))
  {
    var top := c & 0xffff_fff0;
    Nibbles(c);
    hide *;
    FourAreLinear(top, Low(c));
    HighSteps(top);
    TableIsDivision(Low(c));
  }

  /** The two assignments of put. */
  function PutStep(c: bv32, v: bv32): bv32 {
    var d := Xor(High(c), TableEntry(Xor(Low(c), Low(v))));
    Xor(High(d), TableEntry(Xor(Low(d), High(v))))
  }

  lemma PutStepIs(c: bv32, v: bv32)
    requires v < 256
    ensures PutStep(c, v) == FourSteps(FourSteps(Xor(c, v)))
  {
    hide Xor, High, Low, TableEntry, FourSteps;
    var t := TableEntry(Xor(Low(c), Low(v)));
    var d := Xor(High(c), t);
    FirstNibble(c, v);
    NibbleStep(Xor(c, v));
    Reorder(High(c), High(v), t);
    NibbleStep(Xor(d, High(v)));
    SecondNibble(d, v);
  }

  lemma Reorder(a: bv32, b: bv32, t: bv32)
    ensures Xor(Xor(a, b), t) == Xor(Xor(a, t), b)
  {
    hide Xor;
    XorAssoc(a, b, t);
    XorComm(b, t);
    XorAssoc(a, t, b);
  }

  lemma FirstNibble(c: bv32, v: bv32)
    ensures High(Xor(c, v)) == Xor(High(c), High(v)) && Low(Xor(c, v)) == Xor(Low(c), Low(v))
  {}

  lemma SecondNibble(d: bv32, v: bv32)
    requires v < 256
    ensures High(Xor(d, High(v))) == High(d) && Low(Xor(d, High(v))) == Xor(Low(d), High(v))
  {}

  lemma WordSize(v: byte)
    ensures Word(v) < 256
  {}

  /** put divides the byte it sends into the register. */
  lemma PutDivides(c: bv32, v: byte)
    ensures PutStep(c, Word(v)) == ByteStep(c, v)
  {
    WordSize(v);
    PutStepIs(c, Word(v));
    hide Word, PutStep, FourSteps, Xor;
  }

  // ---------- where the register starts ----------

  lemma EightAreLinear(a: bv32, b: bv32)
    ensures EightSteps(Xor(a, b)) == Xor(EightSteps(a), EightSteps(b))
  {
    FourAreLinear(a, b);
    FourAreLinear(FourSteps(a), FourSteps(b));
    hide Xor, FourSteps;
  }

  lemma BackToBits(w: bv8)
    ensures Bits8(Number(w)) == w
  {}

  lemma FlippedWide(w: bv8)
    ensures Wide(Flipped(w)) == Xor(Wide(w), 255)
  {}

  lemma ComplementIs(v: byte)
    ensures Word(Complement(v)) == Xor(Word(v), 255)
  {
    var w := Bits8(v);
    BackToBits(Flipped(w));
    FlippedWide(w);
    hide Bits8, Number, Wide, Flipped, Xor;
  }

  /** Steps undo nothing: different registers stay different. */
  lemma StepInjective(a: bv32, b: bv32)
    requires BitStep(a) == BitStep(b)
    ensures a == b
  {}

  lemma EightInjective(a: bv32, b: bv32)
    requires EightSteps(a) == EightSteps(b)
    ensures a == b
  {
    FourInjective(FourSteps(a), FourSteps(b));
    FourInjective(a, b);
    hide FourSteps;
  }

  lemma FourInjective(a: bv32, b: bv32)
    ensures FourSteps(a) == FourSteps(b) ==> a == b
  {
    hide BitStep;
    if FourSteps(a) == FourSteps(b) {
      StepInjective(BitStep(BitStep(BitStep(a))), BitStep(BitStep(BitStep(b))));
      StepInjective(BitStep(BitStep(a)), BitStep(BitStep(b)));
      StepInjective(BitStep(a), BitStep(b));
      StepInjective(a, b);
    }
  }

  /** How far two registers are apart after one more byte. */
  lemma NextGap(a: bv32, b: bv32, v: byte)
    ensures Xor(ByteStep(a, v), ByteStep(b, v)) == EightSteps(Xor(a, b))
    ensures Xor(ByteStep(a, v), ByteStep(b, Complement(v))) == EightSteps(Xor(Xor(a, b), 255))
    ensures ByteStep(a, v) == ByteStep(b, v) <==> a == b
  {
    var w := Word(v);
    ComplementIs(v);
    assert ByteStep(b, Complement(v)) == EightSteps(Xor(b, Xor(w, 255)));
    assert ByteStep(a, v) == EightSteps(Xor(a, w)) && ByteStep(b, v) == EightSteps(Xor(b, w));
    hide *;
    EightAreLinear(Xor(a, w), Xor(b, w));
    EightAreLinear(Xor(a, w), Xor(b, Xor(w, 255)));
    Cancel(a, b, w);
    if ByteStep(a, v) == ByteStep(b, v) {
      EightInjective(Xor(a, w), Xor(b, w));
    }
  }

  lemma Cancel(a: bv32, b: bv32, w: bv32)
    ensures Xor(Xor(a, w), Xor(b, w)) == Xor(a, b)
    ensures Xor(Xor(a, w), Xor(b, Xor(w, 255))) == Xor(Xor(a, b), 255)
    ensures Xor(a, w) == Xor(b, w) ==> a == b
  {
    hide *;
    XorAssoc(a, w, Xor(b, w));
    XorComm(b, w);
    XorAssoc(w, w, b);
    XorSelf(w);
    XorSelf(b);
    XorComm(0, b);
    XorAssoc(b, w, 255);
    XorAssoc(Xor(a, w), Xor(b, w), 255);
    if Xor(a, w) == Xor(b, w) {
      XorAssoc(a, w, w);
      XorAssoc(b, w, w);
      XorSelf(a);
    }
  }

  /** What is left, four bytes on, of a register that meets the data as it is and one that starts from
      zero with the data turned over. */
  function Gap(c: bv32): bv32 { GapStep(GapStep(GapStep(GapStep(c)))) }

  function GapStep(c: bv32): bv32 { EightSteps(Xor(c, 255)) }

  /** Nothing is left for a register of ones, and for no other. */
  lemma NoGap(c: bv32)
    ensures Gap(c) == 0 <==> c == 0xffff_ffff
  {
    GapOfOnes();
    hide GapStep;
    if Gap(c) == 0 {
      GapApart(GapStep(GapStep(GapStep(c))), 0xff);
      GapApart(GapStep(GapStep(c)), 0xffff);
      GapApart(GapStep(c), 0xff_ffff);
      GapApart(c, 0xffff_ffff);
    }
  }

  lemma GapApart(a: bv32, b: bv32)
    ensures GapStep(a) == GapStep(b) ==> a == b
  {
    if GapStep(a) == GapStep(b) {
      hide EightSteps, Xor;
      EightInjective(Xor(a, 255), Xor(b, 255));
      Cancel(a, b, 255);
    }
  }

  lemma GapOfOnes()
    ensures GapStep(0xffff_ffff) == 0xff_ffff && GapStep(0xff_ffff) == 0xffff && GapStep(0xffff) == 0xff &&
            GapStep(0xff) == 0
  {}

  lemma {:induction false} RegisterGap(c: bv32, data: seq<byte>)
    requires |data| >= 4
    ensures Register(c, data) == Register(0, Complemented(data)) <==> Gap(c) == 0
    decreases |data|
  {
    if |data| == 4 {
      FourBytes(c, data);
      XorZero(Register(c, data), Register(0, Complemented(data)));
    } else {
      var most, v := data[..|data| - 1], data[|data| - 1];
      assert Complemented(data) == Complemented(most) + [v] && data == most + [v];
      hide *;
      RegisterAppend(c, most, v);
      RegisterAppend(0, Complemented(most), v);
      NextGap(Register(c, most), Register(0, Complemented(most)), v);
      RegisterGap(c, most);
    }
  }

  lemma XorZero(a: bv32, b: bv32)
    ensures Xor(a, b) == 0 <==> a == b
  {}

  lemma FourBytes(c: bv32, data: seq<byte>)
    requires |data| == 4
    ensures Xor(Register(c, data), Register(0, Complemented(data))) == Gap(c)
  {
    hide *;
    var s := Complemented(data);
    GapIs(c);
    ComplementedAt(data);
    NothingRead(c);
    FirstBytes(c, data, s, 0);
    FirstBytes(c, data, s, 1);
    FirstBytes(c, data, s, 2);
    FirstBytes(c, data, s, 3);
    assert data[..4] == data && s[..4] == s && data[..0] == [] && s[..0] == [];
  }

  lemma GapIs(c: bv32)
    ensures Gap(c) == GapStep(GapStep(GapStep(GapStep(c))))
  {
    hide GapStep;
  }

  lemma ComplementedAt(data: seq<byte>)
    requires |data| >= 4
    ensures forall i :: 0 <= i < 4 ==> Complemented(data)[i] == Complement(data[i])
  {
    hide Complement;
  }

  lemma NothingRead(c: bv32)
    ensures Register(c, []) == c && Register(0, []) == 0 && Xor(c, 0) == c
  {}

  lemma FirstBytes(c: bv32, data: seq<byte>, s: seq<byte>, k: nat)
    requires |data| == |s| == 4 && k < 4 && s[k] == Complement(data[k])
    ensures Xor(Register(c, data[..k + 1]), Register(0, s[..k + 1]))
         == GapStep(Xor(Register(c, data[..k]), Register(0, s[..k])))
  {
    assert data[..k + 1] == data[..k] + [data[k]] && s[..k + 1] == s[..k] + [s[k]];
    hide Xor, EightSteps, Register, Complement;
    RegisterAppend(c, data[..k], data[k]);
    RegisterAppend(0, s[..k], s[k]);
    NextGap(Register(c, data[..k]), Register(0, s[..k]), data[k]);
  }

  /** A register started with ones, and with nothing else, divides the data with its first 32 bits
      turned over. */
  lemma StartTurnsOver(c: bv32, data: seq<byte>)
    requires |data| >= 4
    ensures Register(c, data) == Register(0, Complemented(data)) <==> c == 0xffff_ffff
  {
    RegisterGap(c, data);
    NoGap(c);
    hide *;
  }

  /** The complement of the register that started with ones is the check value. */
  lemma CheckValue(data: seq<byte>)
    requires |data| >= 4
    ensures (Register(START, data) ^ 0xffff_ffff) as nat == Crc32(data)
  {
    StartTurnsOver(START, data);
    TurnOver(Register(START, data));
    hide Register;
  }

  lemma TurnOver(c: bv32)
    ensures c ^ 0xffff_ffff == 0xffff_ffff - c
  {}
}
