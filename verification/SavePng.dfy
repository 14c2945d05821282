/** The PNG writer: header, one IDAT chunk holding a zlib stream, and the end chunk. */
module SavePng {
  import opened Bits
  import opened Bitmaps
  import opened BitWriter
  import opened Chunks
  import opened Crc
  import opened RunItems

  /** The header chunk of an 8-bit RGBA image. */
  function HeaderData(w: nat, h: nat): (s: seq<byte>)
    requires w < 0x8000_0000 && h < 0x8000_0000
    ensures |s| == 13
  {
    BigEndian(w) + BigEndian(h) + [8, 6, 0, 0, 0]
  }

  /** The sizes a bitmap can have without overflowing C's `int`. */
  ghost predicate Savable(bmp: Bitmap) {
    bmp.Valid() && (4 * bmp.w + 5) * bmp.h < 0x8000_0000 && bmp.w < 0x7fff_ffff && bmp.h < 0x8000_0000
  }

  /** A chunk with its check value, of type and data. */
  function CheckedChunk(id: seq<byte>, data: seq<byte>): seq<byte>
    requires |id| == 4 && |data| < 0x1_0000_0000
  {
    ChunkBytes(id, data, Crc32(id + data))
  }

  /** Fewer than eight zeros. */
  ghost predicate Padding(pad: seq<bool>) { |pad| < 8 && forall i :: 0 <= i < |pad| ==> !pad[i] }

  /** `payload` is a zlib stream of one block in the fixed codes that spells out `runs`. */
  ghost predicate ZlibStream(payload: seq<byte>, runs: seq<Run>) {
    && 6 <= |payload| < 0x1_0000_0000 && payload[..2] == [0x08, 0x1d]
    && Writable(runs)
    && payload[|payload| - 4..] == BigEndian(Adler32(Unrun(runs)))
    && exists pad: seq<bool> :: Padding(pad) && BitsOf(payload[2..|payload| - 4]) == FixedBlockBits(runs) + pad
  }

  /** The last-block flag, the block kind, the runs and the end of the block. */
  function FixedBlockBits(runs: seq<Run>): seq<bool> { Lsb(3, 3) + RunsCode(runs) + FixedCode(256) }

  /** The register starts anew. */
  method StartCheck(s: Save)
    modifies s`crc, s`mark
    ensures s.Checked() && s.mark == |s.out|
  {
    s.crc, s.mark := START, |s.out|;
    assert s.out[s.mark..] == [];
    hide ByteStep;
  }

  /** begin: the check value starts behind the size. */
  method Begin(s: Save, id: seq<byte>, len: nat)
    requires |id| == 4 && len < 0x1_0000_0000 && s.Checked()
    modifies s`out, s`crc, s`mark
    ensures s.out == old(s.out) + BigEndian(len) + id
    ensures s.Checked() && s.mark == |old(s.out)| + 4
  {
    hide *;
    s.Put32(len);
    StartCheck(s);
    s.Put(id[0]);
    s.Put(id[1]);
    s.Put(id[2]);
    s.Put(id[3]);
  }

  /** put32 of the register's complement, at the end of a chunk. */
  method PutCheck(s: Save, ghost sent: seq<byte>)
    requires s.Checked() && s.out[s.mark..] == sent && |sent| >= 4
    modifies s`out, s`crc
    ensures s.out == old(s.out) + BigEndian(Crc32(sent)) && s.Checked()
  {
    CheckValue(sent);
    hide BigEndian, Register, Crc32;
    s.Put32((s.crc ^ 0xffff_ffff) as nat);
  }

  method SaveHeader(s: Save, bmp: Bitmap)
    requires Savable(bmp) && s.out == [] && s.Checked()
    modifies s`out, s`crc, s`mark
    ensures s.out == SIGNATURE + CheckedChunk(IHDR, HeaderData(bmp.w, bmp.h)) && s.Checked()
  {
    hide BigEndian, Crc32, Save.Checked;
    for i := 0 to 8
      invariant s.out == SIGNATURE[..i] && s.Checked()
    {
      s.Put(SIGNATURE[i]);
    }
    Begin(s, IHDR, 13);
    s.Put32(bmp.w);
    s.Put32(bmp.h);
    s.Put(8);
    s.Put(6);
    s.Put(0);
    s.Put(0);
    s.Put(0);
    assert s.out[s.mark..] == IHDR + HeaderData(bmp.w, bmp.h);
    PutCheck(s, IHDR + HeaderData(bmp.w, bmp.h));
  }

  /** One pixel, less the pixel before it. */
  method EncodePixel(s: Save, p: Pixel, prev: Pixel, ghost base: seq<bool>)
    requires s.Encoding(base)
    modifies s
    ensures s.Encoding(base) && s.runlen > 0 && s.data == old(s.data) + Difference(p, prev)
    ensures old(s.out) <= s.out && s.mark == old(s.mark)
  {
    hide Save.Encoding;
    s.EncodeByte((p.r - prev.r) % 256, base);
    s.EncodeByte((p.g - prev.g) % 256, base);
    s.EncodeByte((p.b - prev.b) % 256, base);
    s.EncodeByte((p.a - prev.a) % 256, base);
  }

  /** One row behind the Sub filter's byte. */
  method EncodeRow(s: Save, row: seq<Pixel>, ghost base: seq<bool>)
    requires s.Encoding(base)
    modifies s
    ensures s.Encoding(base) && s.runlen > 0 && s.data == old(s.data) + ([1] + SubRow(row))
    ensures old(s.out) <= s.out && s.mark == old(s.mark)
  {
    hide Difference, Save.Encoding;
    var prev := CLEAR;
    ghost var start := s.data;
    s.EncodeByte(1, base);
    assert SubRow(row[..0]) == [];
    for x := 0 to |row|
      invariant s.Encoding(base) && s.runlen > 0 && old(s.out) <= s.out && s.mark == old(s.mark)
      invariant s.data == start + [1] + SubRow(row[..x])
      invariant prev == if x == 0 then CLEAR else row[x - 1]
    {
      assert row[..x + 1][..x] == row[..x];
      EncodePixel(s, row[x], prev, base);
      prev := row[x];
    }
    assert row[..|row|] == row;
  }

  /** The loop over the rows. */
  method EncodeRows(s: Save, bmp: Bitmap, ghost base: seq<bool>)
    requires bmp.Valid() && s.Encoding(base) && s.data == []
    modifies s
    ensures s.Encoding(base) && s.data == FilteredRows(bmp, bmp.h) && (bmp.h > 0 ==> s.runlen > 0)
    ensures old(s.out) <= s.out && s.mark == old(s.mark)
  {
    NoRows(bmp);
    hide SubRow, FilteredRows, Save.Encoding, Bitmap.Row;
    for y := 0 to bmp.h
      invariant s.Encoding(base) && s.data == FilteredRows(bmp, y) && (y > 0 ==> s.runlen > 0)
      invariant old(s.out) <= s.out && s.mark == old(s.mark)
    {
      NextRow(bmp, y);
      EncodeRow(s, bmp.Row(y), base);
    }
  }

  lemma NoRows(bmp: Bitmap)
    requires bmp.Valid()
    ensures FilteredRows(bmp, 0) == []
  {}

  lemma NextRow(bmp: Bitmap, y: nat)
    requires bmp.Valid() && y < bmp.h
    ensures FilteredRows(bmp, y + 1) == FilteredRows(bmp, y) + ([1] + SubRow(bmp.Row(y)))
  {}

  /** Fills the last byte of the bit stream with zeros. */
  method FlushBits(s: Save) returns (ghost pad: seq<bool>)
    requires s.Valid() && s.Checked()
    modifies s`out, s`bits, s`crc
    ensures s.bits == 0x80 && Padding(pad) && s.Stream() == old(s.Stream()) + pad && old(s.out) <= s.out && s.Checked()
  {
    hide *;
    pad := [];
    PendingCount(s);
    ghost var was, before := s.Stream(), s.out;
    FillingStarts(|was|);
    while s.bits != 0x80
      invariant s.Valid() && s.Checked() && s.Stream() == was + pad && before <= s.out && Filling(|was|, |pad|)
      invariant forall i :: 0 <= i < |pad| ==> !pad[i]
      decreases 8 - |pad|
    {
      PendingCount(s);
      OneZero();
      FillingGoesOn(|was|, |pad|);
      s.PutBits(0, 1);
      assert (was + pad) + [false] == was + (pad + [false]);
      pad := pad + [false];
    }
    FillingEnds(|was|, |pad|);
    IsPadding(pad);
  }

  lemma IsPadding(pad: seq<bool>)
    requires |pad| < 8 && forall i :: 0 <= i < |pad| ==> !pad[i]
    ensures Padding(pad)
  {}

  /** `p` bits have been added to `start`, and no byte was full before the last of them. */
  predicate Filling(start: nat, p: nat) { p > 0 ==> 0 < start % 8 && start % 8 + p <= 8 }

  lemma FillingStarts(start: nat)
    ensures Filling(start, 0)
  {}

  lemma FillingGoesOn(start: nat, p: nat)
    requires Filling(start, p) && (start + p) % 8 != 0
    ensures p < 8 && Filling(start, p + 1)
  {}

  lemma FillingEnds(start: nat, p: nat)
    requires Filling(start, p)
    ensures p < 8
  {}

  lemma OneZero()
    ensures Lsb(0, 1) == [false]
  {
    assert Lsb(0, 1) == [false] + Lsb(0, 0);
  }

  /** No bit waits just when the accumulator holds the bare sentinel. */
  lemma {:induction false} NonePending(b: nat, w: nat)
    requires 0 < b < Pow2(w)
    ensures |Pending(b, w)| == 0 <==> b == Pow2(w - 1)
  {
    if b % 2 == 0 {
      NonePending(b / 2, w - 1);
      assert w >= 2 && Pow2(w - 1) == 2 * Pow2(w - 2);
    } else if w > 1 {
      assert Pow2(w - 1) == 2 * Pow2(w - 2);
    }
  }

  /** How far the bit stream is from a byte boundary. */
  lemma PendingCount(s: Save)
    requires s.Valid()
    ensures |s.Stream()| % 8 == 0 <==> s.bits == 0x80
  {
    PowersOfEight();
    NonePending(s.bits, 8);
    hide BitsOf, Pow2, Pending;
    WholeBytes(|s.out|, |Pending(s.bits, 8)|);
  }

  lemma WholeBytes(n: nat, k: nat)
    requires k < 8
    ensures (8 * n + k) % 8 == k
  {}

  /** endrun, the end of the block, and zeros up to a byte boundary. */
  method FinishBlock(s: Save, ghost base: seq<bool>) returns (ghost runs: seq<Run>, ghost pad: seq<bool>)
    requires s.Encoding(base) && s.runlen > 0
    modifies s
    ensures s.bits == 0x80 && Padding(pad) && BitsOf(s.out) == base + (RunsCode(runs) + FixedCode(256)) + pad
    ensures Writable(runs) && Unrun(runs) == old(s.data) && old(s.out) <= s.out && s.adler == old(s.adler)
    ensures s.Checked() && s.mark == old(s.mark)
  {
    hide FixedCode, RunCode, Repeat, Pending, BitsOf, RunsCode, Unrun, PackedSums, Save.Stream;
    ghost var last := Run(s.prev, s.runlen);
    runs := s.runs + [last];
    RunsAppend(s.runs, last);
    s.EndRun();
    s.Literal(256);
    ghost var body := base + (RunsCode(runs) + FixedCode(256));
    assert s.Stream() == body;
    pad := FlushBits(s);
    WholeStream(s);
  }

  lemma WholeStream(s: Save)
    requires s.bits == 0x80
    ensures s.Stream() == BitsOf(s.out)
  {
    NothingPending(8);
    PowersOfEight();
    hide BitsOf, Pending;
  }

  /** What was written after `start` holds the bits written after it. */
  lemma BitsWritten(start: seq<byte>, out: seq<byte>, bits: seq<bool>)
    requires start <= out && BitsOf(out) == BitsOf(start) + bits
    ensures BitsOf(out[|start|..]) == bits
  {
    var more := out[|start|..];
    assert out == start + more;
    BitsOfAppend(start, more);
    hide BitsOf;
    assert BitsOf(out)[|BitsOf(start)|..] == BitsOf(more);
    assert (BitsOf(start) + bits)[|BitsOf(start)|..] == bits;
  }

  lemma StartEncoding(s: Save, base: seq<bool>)
    requires s.Valid() && s.Checked() && s.Stream() == base
    requires s.prev == NO_BYTE && s.runlen == 0 && s.adler == 1 && s.data == [] && s.runs == []
    ensures s.Encoding(base)
  {
    NoRuns();
    assert AdlerSums([]) == (1, 0);
    assert base + RunsCode([]) == base;
    hide Save.Stream, RunsCode;
  }

  lemma SumsSoFar(s: Save, base: seq<bool>)
    requires s.Encoding(base)
    ensures s.adler == Adler32(s.data)
  {
    PackedIsAdler(s.data);
    hide PackedSums, Adler32;
  }

  /** Nothing is encoded yet. */
  ghost predicate Ready(s: Save)
    reads s
  {
    s.bits == 0x80 && s.prev == NO_BYTE && s.runlen == 0 && s.adler == 1 && s.data == [] && s.runs == [] && s.Checked()
  }

  /** The flag of the last block and the kind of the fixed codes. */
  method BeginBlock(s: Save)
    requires Ready(s)
    modifies s`out, s`bits, s`crc
    ensures s.Encoding(BitsOf(old(s.out)) + Lsb(3, 3)) && s.data == [] && old(s.out) <= s.out
  {
    WholeStream(s);
    hide FixedCode, BitsOf, RunsCode, Unrun, Lsb, Save.Stream, PackedSums, Save.Encoding, Save.Checked;
    ghost var base := BitsOf(s.out) + Lsb(3, 3);
    s.PutBits(3, 3);
    StartEncoding(s, base);
  }

  /** The one block: its bits are the written bytes' bits. */
  method SaveDeflate(s: Save, bmp: Bitmap) returns (ghost runs: seq<Run>, ghost pad: seq<bool>)
    requires bmp.Valid() && bmp.h > 0
    requires Ready(s)
    modifies s
    ensures old(s.out) <= s.out && Padding(pad) && BitsOf(s.out[|old(s.out)|..]) == FixedBlockBits(runs) + pad
    ensures Writable(runs) && Unrun(runs) == FilteredRows(bmp, bmp.h) && s.adler == Adler32(Unrun(runs))
    ensures s.Checked() && s.mark == old(s.mark)
  {
    hide *;
    ghost var start := s.out;
    ghost var base := BitsOf(start) + Lsb(3, 3);
    BeginBlock(s);
    EncodeRows(s, bmp, base);
    SumsSoFar(s, base);
    runs, pad := FinishBlock(s, base);
    BlockWritten(start, s.out, runs, pad);
  }

  lemma BlockWritten(start: seq<byte>, out: seq<byte>, runs: seq<Run>, pad: seq<bool>)
    requires start <= out && BitsOf(out) == BitsOf(start) + Lsb(3, 3) + (RunsCode(runs) + FixedCode(256)) + pad
    ensures BitsOf(out[|start|..]) == FixedBlockBits(runs) + pad
  {
    hide BitsOf, Lsb, RunsCode, FixedCode;
    BitsWritten(start, out, FixedBlockBits(runs) + pad);
  }

  lemma DeflateSize(size: nat, w: nat, h: nat, runs: seq<Run>, pad: seq<bool>)
    requires Writable(runs) && |pad| < 8 && 8 * size == |FixedBlockBits(runs) + pad|
    requires |Unrun(runs)| == h * (4 * w + 1) && (4 * w + 5) * h < 0x8000_0000
    ensures size + 6 < 0x1_0000_0000
  {
    RunsCodeSize(runs);
    hide RunsCode, Unrun, Lsb, Msb;
    MulMono(4 * w + 1, 4 * w + 5, h);
    assert |FixedCode(256)| == 7;
  }

  /** The zlib stream of a bitmap's filtered rows. */
  method SaveZlib(s: Save, bmp: Bitmap) returns (ghost runs: seq<Run>)
    requires Savable(bmp) && bmp.h > 0
    requires Ready(s)
    modifies s
    ensures old(s.out) <= s.out && ZlibStream(s.out[|old(s.out)|..], runs) && Unrun(runs) == FilteredRows(bmp, bmp.h)
    ensures s.Checked() && s.mark == old(s.mark)
  {
    hide FixedBlockBits, BitsOf, Unrun, BigEndian, FilteredRows, Adler32, Save.Checked, Ready, Writable, ZlibStream;
    ghost var start := s.out;
    PutMethod(s);
    ghost var middle := s.out;
    ghost var pad;
    runs, pad := SaveDeflate(s, bmp);
    ghost var deflated := s.out[|middle|..];
    DeflateSize(|deflated|, bmp.w, bmp.h, runs, pad);
    s.Put32(s.adler);
    ghost var payload := s.out[|start|..];
    assert payload == [0x08, 0x1d] + deflated + BigEndian(s.adler);
    IsZlib(payload, deflated, runs, pad);
  }

  /** The two bytes before the blocks. */
  method PutMethod(s: Save)
    requires Ready(s)
    modifies s`out, s`crc
    ensures Ready(s) && s.out == old(s.out) + [0x08, 0x1d]
  {
    hide Save.Checked;
    s.Put(0x08);
    s.Put(0x1d);
  }

  lemma IsZlib(payload: seq<byte>, deflated: seq<byte>, runs: seq<Run>, pad: seq<bool>)
    requires Writable(runs) && payload == [0x08, 0x1d] + deflated + BigEndian(Adler32(Unrun(runs)))
    requires |payload| < 0x1_0000_0000 && Padding(pad) && BitsOf(deflated) == FixedBlockBits(runs) + pad
    ensures ZlibStream(payload, runs)
  {
    hide FixedBlockBits, BitsOf, Unrun, BigEndian, Adler32, Writable, Padding;
    assert payload[2..|payload| - 4] == deflated;
  }

  /** fseek and the four bytes written over the size. */
  method Overwrite32(s: Save, pos: nat, v: nat)
    requires v < 0x1_0000_0000 && pos + 4 <= |s.out|
    modifies s`out
    ensures s.out == old(s.out[..pos]) + BigEndian(v) + old(s.out[pos + 4..])
  {
    s.out := s.out[..pos] + BigEndian(v) + s.out[pos + 4..];
  }

  /** A whole file as the writer makes it. */
  ghost predicate SavedFile(file: seq<byte>, bmp: Bitmap, payload: seq<byte>, crcs: (nat, nat, nat)) {
    && Savable(bmp) && |payload| < 0x1_0000_0000
    && crcs.0 < 0x1_0000_0000 && crcs.1 < 0x1_0000_0000 && crcs.2 < 0x1_0000_0000
    && file == SIGNATURE + ChunkBytes(IHDR, HeaderData(bmp.w, bmp.h), crcs.0) + ChunkBytes(IDAT, payload, crcs.1)
        + ChunkBytes(IEND, [], crcs.2)
  }

  lemma ZlibSize(payload: seq<byte>, runs: seq<Run>)
    requires ZlibStream(payload, runs)
    ensures |payload| < 0x1_0000_0000
  {}

  /** savePngData: the size is still zero. */
  method SaveData(s: Save, bmp: Bitmap) returns (dataSize: nat, ghost payload: seq<byte>, ghost runs: seq<Run>)
    requires Savable(bmp) && bmp.h > 0
    requires Ready(s)
    modifies s
    ensures s.out == old(s.out) + BigEndian(0) + (IDAT + payload + BigEndian(Crc32(IDAT + payload)))
    ensures dataSize == |payload| < 0x1_0000_0000 && s.Checked()
    ensures ZlibStream(payload, runs) && Unrun(runs) == FilteredRows(bmp, bmp.h)
  {
    hide Crc32, Save.Checked, FilteredRows, Unrun, BigEndian, ZlibStream;
    ghost var start := s.out;
    var dataPos := |s.out|;
    Begin(s, IDAT, 0);
    ghost var begun := s.out;
    runs := SaveZlib(s, bmp);
    payload := s.out[|begun|..];
    ZlibSize(payload, runs);
    assert s.out == begun + payload;
    dataSize := |s.out| - dataPos - 8;
    assert s.out[s.mark..] == IDAT + payload;
    PutCheck(s, IDAT + payload);
  }

  /** The size written over the zero completes the data chunk. */
  lemma Patched(header: seq<byte>, payload: seq<byte>, crc1: nat, crc2: nat, out: seq<byte>)
    requires |payload| < 0x1_0000_0000 && crc1 < 0x1_0000_0000 && crc2 < 0x1_0000_0000
    requires out == header + BigEndian(0) + (IDAT + payload + BigEndian(crc1)) + BigEndian(0) + IEND + BigEndian(crc2)
    ensures |header| + 4 <= |out|
    ensures out[..|header|] + BigEndian(|payload|) + out[|header| + 4..]
         == header + ChunkBytes(IDAT, payload, crc1) + ChunkBytes(IEND, [], crc2)
  {
    hide BigEndian;
    var rest := (IDAT + payload + BigEndian(crc1)) + (BigEndian(0) + IEND + BigEndian(crc2));
    assert out == header + BigEndian(0) + rest;
    assert out[|header| + 4..] == rest;
    assert BigEndian(|payload|) + rest == ChunkBytes(IDAT, payload, crc1) + ChunkBytes(IEND, [], crc2);
  }

  /** The check values of the three chunks. */
  function CheckValues(bmp: Bitmap, payload: seq<byte>): (crcs: (nat, nat, nat))
    requires bmp.w < 0x8000_0000 && bmp.h < 0x8000_0000
    ensures crcs.0 < 0x1_0000_0000 && crcs.1 < 0x1_0000_0000 && crcs.2 < 0x1_0000_0000
  {
    (Crc32(IHDR + HeaderData(bmp.w, bmp.h)), Crc32(IDAT + payload), Crc32(IEND + []))
  }

  /** The file of a bitmap: its data chunk is a zlib stream of the filtered rows. */
  ghost predicate ImageFile(file: seq<byte>, bmp: Bitmap) {
    && Savable(bmp)
    && exists payload, runs :: SavedFile(file, bmp, payload, CheckValues(bmp, payload)) && ZlibStream(payload, runs) &&
        Unrun(runs) == FilteredRows(bmp, bmp.h)
  }

  lemma IsImageFile(file: seq<byte>, bmp: Bitmap, payload: seq<byte>, runs: seq<Run>)
    requires Savable(bmp) && SavedFile(file, bmp, payload, CheckValues(bmp, payload))
    requires ZlibStream(payload, runs) && Unrun(runs) == FilteredRows(bmp, bmp.h)
    ensures ImageFile(file, bmp)
  {
    hide SavedFile, ZlibStream, Unrun, FilteredRows, CheckValues;
  }

  /** tigrSaveImage. */
  method SaveImage(bmp: Bitmap) returns (file: seq<byte>, ghost payload: seq<byte>, ghost runs: seq<Run>)
    requires Savable(bmp) && bmp.h > 0
    ensures ImageFile(file, bmp)
    ensures SavedFile(file, bmp, payload, CheckValues(bmp, payload))
    ensures ZlibStream(payload, runs) && Unrun(runs) == FilteredRows(bmp, bmp.h)
  {
    hide FilteredRows, Unrun, BigEndian, HeaderData, ZlibStream, ChunkBytes, Crc32, Save.Checked;
    var s := new Save();
    SaveHeader(s, bmp);
    var dataPos := |s.out|;
    ghost var header := s.out;
    var dataSize;
    dataSize, payload, runs := SaveData(s, bmp);
    Begin(s, IEND, 0);
    assert s.out[s.mark..] == IEND + [];
    PutCheck(s, IEND + []);
    Patched(header, payload, Crc32(IDAT + payload), Crc32(IEND + []), s.out);
    Overwrite32(s, dataPos, dataSize);
    file := s.out;
    ChecksIn(file, bmp, payload);
    hide *;
    IsImageFile(file, bmp, payload, runs);
  }

  lemma ChecksIn(file: seq<byte>, bmp: Bitmap, payload: seq<byte>)
    requires Savable(bmp) && |payload| < 0x1_0000_0000
    requires file == SIGNATURE + CheckedChunk(IHDR, HeaderData(bmp.w, bmp.h)) + CheckedChunk(IDAT, payload)
               + CheckedChunk(IEND, [])
    ensures SavedFile(file, bmp, payload, CheckValues(bmp, payload))
  {
    hide Crc32, BigEndian, HeaderData;
  }
}
