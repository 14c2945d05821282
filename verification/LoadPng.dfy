/** The PNG loader: chunks, header, inflate, unfilter and conversion in one buffer. */
module LoadPng {
  import opened Basics
  import opened Bits
  import opened Bitmaps
  import opened Chunks
  import opened Filters
  import opened Convert
  import opened Palette
  import opened Wrappers
  import B = Blocks
  import I = Inflate

  // ---------- the header ----------

  const PALETTED: byte := 3

  /** Section 4.1.1 of RFC 2083: how many samples a pixel of a colour type has. */
  function Samples(ctype: byte): nat {
    match ctype
    case 0 => 1
    case 2 => 3
    case 3 => 1
    case 4 => 2
    case 6 => 4
    case _ => 0
  }

  function BitsPerPixel(ctype: byte, depth: byte): Option<nat> {
    if Samples(ctype) == 0 then None else Some(Samples(ctype) * depth)
  }

  /** The switch over the colour type. */
  method PixelBits(ctype: byte, depth: byte) returns (bipp: Option<nat>)
    ensures bipp == BitsPerPixel(ctype, depth)
  {
    match ctype {
      case 0 => bipp := Some(depth);
      case 2 => bipp := Some(3 * depth);
      case 3 => bipp := Some(depth);
      case 4 => bipp := Some(2 * depth);
      case 6 => bipp := Some(4 * depth);
      case _ => bipp := None;
    }
  }

  datatype Header = Header(w: nat, h: nat, depth: byte, ctype: byte, compression: byte, filter: byte, interlace: byte) {
    predicate Supported() {
      ctype in {0, 2, 3, 4, 6} && depth != 16 && compression == 0 && filter == 0 && interlace == 0
    }
  }

  function ParseHeader(d: seq<byte>): Header
    requires |d| >= 13
  {
    Header(Get32(d[0..4]), Get32(d[4..8]), d[8], d[9], d[10], d[11], d[12])
  }

  function OutSize(w: nat, h: nat, bipp: nat): nat { Area(h, RowSize(w, bipp)) }

  /** Section 2.2 of RFC 1950, in bits of the first two bytes: method 8 in the low four of the first,
      a window of 32K at most, and no preset dictionary. */
  ghost predicate ZlibHeaderOk(data: seq<byte>) {
    |data| >= 6 && Lsb(data[0], 8)[..4] == [false, false, false, true] && !Lsb(data[0], 8)[7] && !Lsb(data[1], 8)[5]
  }

  /** The test of the two bytes. */
  method CheckZlib(data: seq<byte>) returns (ok: bool)
    ensures ok <==> ZlibHeaderOk(data)
  {
    if |data| < 6 {
      return false;
    }
    HeaderBits(data[0]);
    HeaderBits(data[1]);
    hide Lsb;
    ok := data[0] % 16 == 8 && data[0] / 16 * 16 <= 0x70 && data[1] / 32 % 2 == 0;
  }

  lemma HeaderBits(v: byte)
    ensures Lsb(v, 8)[..4] == [false, false, false, true] <==> v % 16 == 8
    ensures Lsb(v, 8)[7] <==> v / 16 * 16 > 0x70
    ensures Lsb(v, 8)[5] <==> v / 32 % 2 == 1
  {
    hide *;
    var v1, v2, v3 := v / 2, v / 2 / 2, v / 2 / 2 / 2;
    var v4 := v3 / 2;
    var v5, v6, v7 := v4 / 2, v4 / 2 / 2, v4 / 2 / 2 / 2;
    FourFirst(v, 4);
    FourFirst(v4, 0);
    Digits(v, v1, v2, v3, v4, v5, v6, v7);
    Apart8(Lsb(v, 8), Nibble(v), Nibble(v4), Lsb(v7 / 2, 0));
    NibbleIs(v);
    NibbleIs(v4);
  }

  /** The low four bits, lowest first. */
  function Nibble(v: nat): (s: seq<bool>)
    ensures |s| == 4
  {
    [v % 2 == 1, v / 2 % 2 == 1, v / 2 / 2 % 2 == 1, v / 2 / 2 / 2 % 2 == 1]
  }

  lemma NibbleIs(v: nat)
    ensures Nibble(v) == [false, false, false, true] <==>
              v % 2 == 0 && v / 2 % 2 == 0 && v / 2 / 2 % 2 == 0 && v / 2 / 2 / 2 % 2 == 1
    ensures Nibble(v)[1] == (v / 2 % 2 == 1) && Nibble(v)[3] == (v / 2 / 2 / 2 % 2 == 1)
  {}

  lemma FourFirst(v: nat, n: nat)
    ensures Lsb(v, n + 4) == Nibble(v) + Lsb(v / 2 / 2 / 2 / 2, n)
  {
    LsbStep(v, n + 3);
    LsbStep(v / 2, n + 2);
    LsbStep(v / 2 / 2, n + 1);
    LsbStep(v / 2 / 2 / 2, n);
    hide Lsb;
    OneByOne(v % 2 == 1, v / 2 % 2 == 1, v / 2 / 2 % 2 == 1, v / 2 / 2 / 2 % 2 == 1, Lsb(v / 2 / 2 / 2 / 2, n));
  }

  lemma OneByOne(a: bool, b: bool, c: bool, d: bool, s: seq<bool>)
    ensures [a] + ([b] + ([c] + ([d] + s))) == [a, b, c, d] + s
  {}

  lemma Apart8(s: seq<bool>, a: seq<bool>, b: seq<bool>, c: seq<bool>)
    requires |s| == 8 && |a| == |b| == 4 && s == a + (b + c)
    ensures s[..4] == a && s[5] == b[1] && s[7] == b[3]
  {}

  lemma LsbStep(v: nat, n: nat)
    ensures Lsb(v, n + 1) == [v % 2 == 1] + Lsb(v / 2, n)
  {}

  lemma Digits(v: byte, v1: nat, v2: nat, v3: nat, v4: nat, v5: nat, v6: nat, v7: nat)
    requires v1 == v / 2 && v2 == v1 / 2 && v3 == v2 / 2 && v4 == v3 / 2 && v5 == v4 / 2 && v6 == v5 / 2 && v7 == v6 / 2
    ensures v % 16 == 8 <==> v % 2 == 0 && v1 % 2 == 0 && v2 % 2 == 0 && v3 % 2 == 1
    ensures v / 16 * 16 > 0x70 <==> v7 % 2 == 1
    ensures v / 32 % 2 == v5 % 2
  {
    FourDigits(v, v1, v2, v3, v4);
    FourDigits(v4, v5, v6, v7, v7 / 2);
    assert v / 32 == v5 by { assert v / 32 == v / 16 / 2; }
  }

  lemma FourDigits(v: nat, v1: nat, v2: nat, v3: nat, v4: nat)
    requires v1 == v / 2 && v2 == v1 / 2 && v3 == v2 / 2 && v4 == v3 / 2
    ensures v / 16 == v4 && v % 16 == 8 * (v3 % 2) + 4 * (v2 % 2) + 2 * (v1 % 2) + v % 2
  {
    var r := 8 * (v3 % 2) + 4 * (v2 % 2) + 2 * (v1 % 2) + v % 2;
    assert v == 16 * v4 + r && 0 <= r < 16;
    Sixteenth(v, v4, r);
  }

  lemma Sixteenth(v: nat, q: nat, r: nat)
    requires v == 16 * q + r && r < 16
    ensures v / 16 == q && v % 16 == r
  {}

  // ---------- what a file means ----------

  ghost predicate HasHeader(chunks: seq<Chunk>) { FirstMatch(chunks, IHDR, 13) < |chunks| }

  ghost function HeaderOf(chunks: seq<Chunk>): Header
    requires HasHeader(chunks)
  {
    ParseHeader(chunks[FirstMatch(chunks, IHDR, 13)].data)
  }

  ghost function AfterHeader(chunks: seq<Chunk>): seq<Chunk>
    requires HasHeader(chunks)
  {
    chunks[FirstMatch(chunks, IHDR, 13) + 1..]
  }

  /** A pointer to a chunk's data: the file from there on, and the size of the chunk. */
  datatype Piece = Piece(bytes: seq<byte>, size: nat)

  /** The first chunk of a type. */
  ghost function PieceOf(chunks: seq<Chunk>, kind: seq<byte>): Option<Piece>
    requires ChunksOk(chunks)
  {
    var k := FirstMatch(chunks, kind, 0);
    if k == |chunks| then None else Some(Piece(FromData(chunks, k), |chunks[k].data|))
  }

  /** All that lies at the pointer, for a transparent colour, which is read without a look at the size. */
  function Whole(p: Option<Piece>): Transparent { if p.None? then None else Some(p.value.bytes) }

  /** The data of the chunk, for the transparency of palette entries. */
  function Sized(p: Option<Piece>): Transparent {
    if p.None? then None
    else Some(if p.value.size <= |p.value.bytes| then p.value.bytes[..p.value.size] else p.value.bytes)
  }

  /** The pointer leads to the chunk's data, and its size to their end. */
  lemma PieceIsChunk(chunks: seq<Chunk>, kind: seq<byte>)
    requires ChunksOk(chunks)
    ensures var k, p := FirstMatch(chunks, kind, 0), PieceOf(chunks, kind);
            if k == |chunks| then Sized(p) == Whole(p) == None
            else Sized(p) == Some(chunks[k].data) && Whole(p).Some? && chunks[k].data <= Whole(p).value
  {
    hide FirstMatch, FileBytes;
  }

  /** The checks before the inflater runs. */
  ghost predicate Readable(chunks: seq<Chunk>) {
    && HasHeader(chunks) && HeaderOf(chunks).Supported()
    && HasData(AfterHeader(chunks)) && ZlibHeaderOk(Joined(AfterHeader(chunks)))
  }

  ghost function Bipp(chunks: seq<Chunk>): (bipp: nat)
    requires Readable(chunks)
    ensures HeaderOf(chunks).depth in {1, 2, 4, 8} ==> 0 < bipp <= 32
  {
    BitsPerPixel(HeaderOf(chunks).ctype, HeaderOf(chunks).depth).value
  }

  /** The bits the inflater may look at: all but the two-byte header and the last two bytes. */
  ghost function DeflateBits(chunks: seq<Chunk>): seq<bool>
    requires Readable(chunks)
  {
    var data := Joined(AfterHeader(chunks));
    BitsOf(data[2..|data| - 2])
  }

  /** The data is a well-formed stream. */
  ghost predicate Inflates(chunks: seq<Chunk>, blocks: seq<B.BlockDesc>, tail: seq<bool>)
    requires Readable(chunks)
  {
    B.StreamOk(DeflateBits(chunks), [], blocks, tail) && |tail| >= 16
  }

  ghost function Inflated(chunks: seq<Chunk>, blocks: seq<B.BlockDesc>, tail: seq<bool>): seq<byte>
    requires Readable(chunks) && Inflates(chunks, blocks, tail)
  {
    B.StreamBytes([], blocks, DeflateBits(chunks), tail)
  }

  ghost function NeededBytes(chunks: seq<Chunk>): nat
    requires Readable(chunks)
  {
    OutSize(HeaderOf(chunks).w, HeaderOf(chunks).h, Bipp(chunks))
  }

  /** The front of a buffer of zeros that is otherwise left alone. */
  function Filled(front: seq<byte>, n: nat): (s: seq<byte>)
    requires |front| <= n
    ensures |s| == n && s[..|front|] == front
  {
    front + Zeros(n - |front|)
  }

  /** The rows the filters are undone in: a stream may be too short for the image. */
  ghost function RawRows(chunks: seq<Chunk>, blocks: seq<B.BlockDesc>, tail: seq<bool>): (raw: seq<byte>)
    requires Readable(chunks) && Inflates(chunks, blocks, tail)
    requires |Inflated(chunks, blocks, tail)| <= NeededBytes(chunks)
    ensures |raw| == OutSize(HeaderOf(chunks).w, HeaderOf(chunks).h, Bipp(chunks))
  {
    Filled(Inflated(chunks, blocks, tail), NeededBytes(chunks))
  }

  /** Whole bytes per pixel, and as many raw bytes as the image needs. */
  ghost predicate Convertible(raw: seq<byte>, w: nat, h: nat, bipp: nat, trns: Transparent) {
    0 < bipp <= 32 && bipp % 8 == 0 && TransparentOk(trns, bipp / 8) && |raw| == OutSize(w, h, bipp)
  }

  /** The rows with their filters undone, as pixels. */
  ghost function PixelsOf(raw: seq<byte>, w: nat, h: nat, bipp: nat, trns: Transparent): seq<Pixel>
    requires Convertible(raw, w, h, bipp, trns)
  {
    UnreadAtStart(w, h, bipp);
    Scan(UndoRows(raw, h, RowSize(w, bipp), RowSize(1, bipp), Zeros(RowSize(w, bipp))), w, bipp / 8, 0, h, trns)
  }

  lemma UnreadAtStart(w: nat, h: nat, bipp: nat)
    requires bipp <= 32 && bipp % 8 == 0
    ensures Unread(w, bipp / 8, 0, h) == OutSize(w, h, bipp)
  {
    RowSizes(w, bipp);
    hide Area, RowSize;
  }

  // ---------- sizes ----------

  lemma RowSizes(w: nat, bipp: nat)
    requires bipp <= 32
    ensures RowSize(w, 32) == 4 * w && RowSize(w, bipp) <= 4 * w
    ensures bipp % 8 == 0 ==> RowSize(w, bipp) == w * (bipp / 8)
  {
    Wider(bipp, 32, w);
    var n := w * bipp;
    assert w * 32 == 32 * w;
    assert n <= 32 * w by { assert bipp * w == n; }
    if bipp % 8 == 0 {
      var b := bipp / 8;
      assert bipp == 8 * b;
      Scale(w, b);
      assert n == 8 * (w * b);
    }
  }

  lemma Scale(w: nat, b: nat)
    ensures w * (8 * b) == 8 * (w * b)
  {}

  lemma AreaGrows(h: nat, a: nat, b: nat)
    requires a <= b
    ensures Area(h, a) <= Area(h, b)
  {
    Wider(1 + a, 1 + b, h);
    assert Area(h, a) == (1 + a) * h && Area(h, b) == (1 + b) * h;
  }

  /** The place the loader gives the raw rows leaves each pixel room for its four bytes. */
  lemma RoomAtStart(w: nat, h: nat, bypp: nat)
    requires 1 <= bypp <= 4
    ensures Area(h, w * bypp) <= Area(h, 4 * w)
    ensures Room(Area(h, 4 * w) - Area(h, w * bypp), 0, bypp, PixelsLeft(0, h, w))
  {
    Wider(bypp, 4, w);
    assert bypp * w == w * bypp;
    AreaGrows(h, w * bypp, 4 * w);
    var k := h * w;
    assert Area(h, 4 * w) == h + 4 * k by { assert h * (1 + 4 * w) == h + h * (4 * w); }
    assert Area(h, w * bypp) == h + bypp * k by { ByAreas(h, w, bypp); }
    assert PixelsLeft(0, h, w) == k;
    hide Area, PixelsLeft;
    assert (4 - bypp) * k == 4 * k - bypp * k;
  }

  lemma ByAreas(h: nat, w: nat, b: nat)
    ensures Area(h, w * b) == h + b * (h * w)
  {
    assert h * (1 + w * b) == h + h * (w * b);
    assert h * (w * b) == b * (h * w);
  }

  lemma BufferSize(w: nat, h: nat)
    ensures Area(h, 4 * w) <= 4 * ((w + 1) * h)
  {
    assert (w + 1) * h == h * w + h;
    assert h * (1 + 4 * w) == h + 4 * (h * w);
  }

  // ---------- the loader ----------

  datatype Parsed = Parsed(header: Header, data: seq<byte>, plte: Option<Piece>, trns: Option<Piece>)

  /** The part of tigrLoadPng that reads chunks, with all its checks. */
  method ReadChunks(file: seq<byte>, ghost chunks: seq<Chunk>) returns (r: Option<Parsed>)
    requires |file| >= 8 && (file[..8] == SIGNATURE ==> ChunksOk(chunks) && file[8..] == FileBytes(chunks))
    ensures r.Some? <==> file[..8] == SIGNATURE && Readable(chunks)
    ensures r.Some? ==> r.value == Parsed(HeaderOf(chunks), Joined(AfterHeader(chunks)), PieceOf(chunks, PLTE),
                                          PieceOf(chunks, TRNS))
  {
    hide FileBytes, Get32, FirstMatch, Joined, HasData;
    if file[..8] != SIGNATURE {
      return None;
    }
    var ihdr, p := Find(file, 8, IHDR, 13, chunks);
    if ihdr.None? {
      return None;
    }
    ghost var d := chunks[FirstMatch(chunks, IHDR, 13)].data;
    var at := ihdr.value;
    HeaderInPlace(file, at, d);
    var header := ParseHeader(file[at..at + 13]);
    var bipp := PixelBits(header.ctype, header.depth);
    if bipp.None? || header.depth == 16 || header.compression != 0 || header.filter != 0 || header.interlace != 0 {
      return None;
    }
    var data := JoinData(file, p, AfterHeader(chunks));
    var plte := ReadChunk(file, PLTE, chunks);
    var trns := ReadChunk(file, TRNS, chunks);
    if data.None? {
      return None;
    }
    var zlib := CheckZlib(data.value);
    if !zlib {
      return None;
    }
    r := Some(Parsed(header, data.value, plte, trns));
  }

  /** The first chunk of a type, from the start of the file. */
  method ReadChunk(file: seq<byte>, kind: seq<byte>, ghost chunks: seq<Chunk>) returns (r: Option<Piece>)
    requires |file| >= 8 && |kind| == 4 && ChunksOk(chunks) && file[8..] == FileBytes(chunks)
    ensures r == PieceOf(chunks, kind)
  {
    hide FileBytes, Get32, FirstMatch, FromData;
    var found, q := Find(file, 8, kind, 0, chunks);
    if found.None? {
      return None;
    }
    r := Some(Piece(file[found.value..], Get32(file[found.value - 8..found.value - 4])));
  }

  lemma HeaderInPlace(file: seq<byte>, at: nat, d: seq<byte>)
    requires at + |d| <= |file| && |d| >= 13 && file[at..at + |d|] == d
    ensures ParseHeader(file[at..at + 13]) == ParseHeader(d)
  {
    hide Get32;
    var f := file[at..at + 13];
    assert f == d[..13];
    assert f[0..4] == d[0..4] && f[4..8] == d[4..8];
  }

  /** The stream of the image spells out `raw`. */
  ghost predicate Spells(p: Parsed, blocks: seq<B.BlockDesc>, tail: seq<bool>, raw: seq<byte>) {
    |p.data| >= 6 &&
    var bits := BitsOf(p.data[2..|p.data| - 2]);
    B.StreamOk(bits, [], blocks, tail) && |tail| >= 16 && B.StreamBytes([], blocks, bits, tail) == raw
  }

  /** The rows with their filters undone. */
  function PlainRows(raw: seq<byte>, w: nat, h: nat, bipp: nat): (rows: seq<byte>)
    requires bipp > 0 && |raw| == OutSize(w, h, bipp)
    ensures |rows| == |raw|
  {
    UndoRows(raw, h, RowSize(w, bipp), RowSize(1, bipp), Zeros(RowSize(w, bipp)))
  }

  /** In an image of width zero the loop over the bytes of a pixel stays inside the buffers. */
  ghost predicate NarrowOk(w: nat, h: nat, bipp: nat, raw: seq<byte>) {
    w == 0 ==> |raw| == h && EmptyRowsFit(Filled(raw, 4 * h), 0, true, h, RowSize(1, bipp))
  }

  /** No filter is unknown; in an image of width zero the filters change those of the next rows. */
  ghost predicate FiltersKnown(w: nat, h: nat, bipp: nat, raw: seq<byte>)
    requires bipp > 0 && |raw| == OutSize(w, h, bipp) && NarrowOk(w, h, bipp, raw)
  {
    if w == 0 then EmptyRows(Filled(raw, 4 * h), 0, true, h, RowSize(1, bipp)).Some?
    else KnownFilters(raw, h, RowSize(w, bipp))
  }

  /** Inflating into the end of the pixel buffer and undoing the filters there, which leaves `rows`
      with their filters undone. */
  method RestoreRows(p: Parsed, bipp: nat, buffer: array<byte>, off: nat, ghost blocks: seq<B.BlockDesc>,
                     ghost tail: seq<bool>, ghost stream: seq<byte>)
    returns (ok: bool, ghost rows: seq<byte>)
    requires 0 < bipp && Spells(p, blocks, tail, stream) && buffer[..] == Zeros(buffer.Length)
    requires var size := OutSize(p.header.w, p.header.h, bipp);
             && off + size <= buffer.Length
             && (|stream| <= size ==> NarrowOk(p.header.w, p.header.h, bipp, Filled(stream, size)))
    requires p.header.w == 0 ==> off == 0 && buffer.Length == 4 * p.header.h
    modifies buffer
    ensures var w, h, size := p.header.w, p.header.h, OutSize(p.header.w, p.header.h, bipp);
            && (ok <==> |stream| <= size && FiltersKnown(w, h, bipp, Filled(stream, size)))
            && (ok ==> |rows| == size && (w > 0 ==> rows == Filled(stream, size)))
            && (ok ==> buffer[off..off + size] == PlainRows(rows, w, h, bipp))
  {
    hide BitsOf, B.StreamOk, B.StreamBytes, KnownFilters, UndoRows, EmptyRows, EmptyRowsFit, Filled;
    rows := [];
    var w, h := p.header.w, p.header.h;
    var size := OutSize(w, h, bipp);
    assert p.data[2..2 + (|p.data| - 6) + 2] == p.data[2..|p.data| - 2];
    ok := I.TigrInflate(buffer, off, size, p.data, 2, |p.data| - 6, blocks, tail);
    if !ok {
      return;
    }
    WindowFilled(buffer[..], off, size, stream);
    if w == 0 {
      AllFilled(buffer[..], h, stream);
    }
    assert buffer[off..off + size] == Filled(stream, size);
    ok := Unfilter(w, h, bipp, buffer, off);
    rows := if w == 0 then buffer[off..off + size] else Filled(stream, size);
    if w == 0 {
      EmptyUndone(rows, h, RowSize(1, bipp));
    }
  }

  lemma WindowFilled(buffer: seq<byte>, off: nat, size: nat, stream: seq<byte>)
    requires |stream| <= size && off + size <= |buffer| && buffer[off..off + |stream|] == stream
    requires buffer[off + |stream|..] == Zeros(|buffer|)[off + |stream|..]
    ensures buffer[off..off + size] == Filled(stream, size)
  {
    forall k | 0 <= k < size
      ensures buffer[off..off + size][k] == Filled(stream, size)[k]
    {
      if k < |stream| {
        assert buffer[off..off + |stream|][k] == buffer[off + k];
      } else {
        assert buffer[off + k] == buffer[off + |stream|..][k - |stream|];
      }
    }
  }

  lemma AllFilled(buffer: seq<byte>, h: nat, stream: seq<byte>)
    requires |stream| <= h && |buffer| == 4 * h && buffer[0..|stream|] == stream
    requires buffer[|stream|..] == Zeros(|buffer|)[|stream|..]
    ensures buffer == Filled(Filled(stream, h), 4 * h)
  {
    WindowFilled(buffer, 0, h, stream);
    WindowFilled(buffer, 0, 4 * h, stream);
    assert buffer[0..h] == buffer[..h];
  }

  /** Rows without a byte are their filter bytes. */
  lemma {:induction false} EmptyUndone(rows: seq<byte>, h: nat, bpp: nat)
    requires |rows| == Area(h, 0) && bpp > 0
    ensures UndoRows(rows, h, 0, bpp, Zeros(0)) == rows
  {
    if h != 0 {
      FirstOfRows(h, 0);
      EmptyUndone(rows[1..], h - 1, bpp);
      assert Undo(rows[0], rows[1..1], Zeros(0), bpp, 0) == Zeros(0) == [];
      assert rows == [rows[0]] + [] + rows[1..];
    }
  }

  /** The buffer's bytes as pixels. */
  function Pixels(s: seq<byte>): (pix: seq<Pixel>)
    requires |s| % 4 == 0
    ensures |pix| == |s| / 4
  {
    if s == [] then []
    else
      var k := |s| - 4;
      Pixels(s[..k]) + [Pixel(s[k], s[k + 1], s[k + 2], s[k + 3])]
  }

  lemma {:induction false} PixelsOfFlat(pix: seq<Pixel>)
    ensures |Flat(pix)| % 4 == 0 && Pixels(Flat(pix)) == pix
  {
    if pix != [] {
      var most, p := pix[..|pix| - 1], pix[|pix| - 1];
      PixelsOfFlat(most);
      assert Flat(pix)[..4 * |most|] == Flat(most);
    }
  }

  /** The bitmap is one column wider than the image, to leave room for the filter bytes. */
  function BufferLength(w: nat, h: nat): nat { 4 * ((w + 1) * h) }

  lemma Placement(w: nat, h: nat, bipp: nat)
    requires bipp <= 32
    ensures OutSize(w, h, bipp) <= OutSize(w, h, 32) <= BufferLength(w, h)
    ensures w == 0 ==> OutSize(w, h, bipp) == OutSize(w, h, 32) == h && BufferLength(w, h) == 4 * h
  {
    RowSizes(w, bipp);
    AreaGrows(h, RowSize(w, bipp), 4 * w);
    BufferSize(w, h);
    hide RowSize;
    assert OutSize(w, h, 32) == Area(h, 4 * w);
    if w == 0 {
      assert Area(h, 0) == h;
    }
  }

  lemma ConversionStarts(buffer: seq<byte>, off: nat, end: nat, raw: seq<byte>, w: nat, h: nat, bipp: nat,
                         trns: Transparent)
    requires Convertible(raw, w, h, bipp, trns) && OutSize(w, h, bipp) <= OutSize(w, h, 32) &&
             off == OutSize(w, h, 32) - OutSize(w, h, bipp)
    requires end == off + |raw| <= |buffer|
    requires buffer[off..end] == UndoRows(raw, h, RowSize(w, bipp), RowSize(1, bipp), Zeros(RowSize(w, bipp)))
    ensures ScanUnderWay(buffer, off, 0, end, w, bipp / 8, 0, h, trns, [], PixelsOf(raw, w, h, bipp, trns))
  {
    var b := bipp / 8;
    RowSizes(w, bipp);
    RowSizes(1, bipp);
    RoomAtStart(w, h, b);
    UnreadAtStart(w, h, bipp);
    hide RowSize, Area, UndoRows, Scan, Unread, PixelsLeft, Room;
    var goal := PixelsOf(raw, w, h, bipp, trns);
    assert [] + goal == goal;
    assert buffer[..0] == Flat([]);
  }

  lemma {:induction false} ScanSize(s: seq<byte>, w: nat, bypp: nat, left: nat, rows: nat, trns: Transparent)
    requires 1 <= bypp <= 4 && TransparentOk(trns, bypp) && |s| == Unread(w, bypp, left, rows)
    ensures |Scan(s, w, bypp, left, rows, trns)| == PixelsLeft(left, rows, w)
    decreases rows, left
  {
    PixelsLeftStep(left, rows, w);
    UnreadStep(w, bypp, left, rows);
    if left > 0 {
      ScanPixel(s, w, bypp, left, rows, trns);
      ScanSize(s[bypp..], w, bypp, left - 1, rows, trns);
    } else if rows > 0 {
      ScanRow(s, w, bypp, rows, trns);
      ScanSize(s[1..], w, bypp, w, rows - 1, trns);
    }
    hide ToPixel, Unread, PixelsLeft;
  }

  lemma PixelCount(raw: seq<byte>, w: nat, h: nat, bipp: nat, trns: Transparent)
    requires Convertible(raw, w, h, bipp, trns)
    ensures |PixelsOf(raw, w, h, bipp, trns)| == w * h
  {
    UnreadAtStart(w, h, bipp);
    assert PixelsLeft(0, h, w) == w * h;
    hide Scan, UndoRows, Unread, Area, PixelsLeft, OutSize, RowSize;
    ScanSize(UndoRows(raw, h, RowSize(w, bipp), RowSize(1, bipp), Zeros(RowSize(w, bipp))), w, bipp / 8, 0, h, trns);
  }

  /** What the colours need: with a palette, every index in it; else the bytes of a transparent colour. */
  ghost predicate ColoursOk(p: Parsed, bipp: nat, raw: seq<byte>)
    requires bipp > 0 && |raw| == OutSize(p.header.w, p.header.h, bipp)
  {
    var w, h := p.header.w, p.header.h;
    if p.header.ctype == PALETTED
    then PaletteDepth(bipp) && (p.plte.Some? ==> InPalette(PlainRows(raw, w, h, bipp), w, h, bipp, p.plte.value.bytes))
    else bipp % 8 == 0 ==> TransparentOk(Whole(p.trns), bipp / 8)
  }

  /** The colours are complete: there is a palette, or whole bytes per pixel. */
  predicate Coloured(p: Parsed, bipp: nat) { if p.header.ctype == PALETTED then p.plte.Some? else bipp % 8 == 0 }

  /** The image the rows stand for. */
  ghost function ImageOf(p: Parsed, bipp: nat, raw: seq<byte>): Bitmap
    requires 0 < bipp <= 32 && |raw| == OutSize(p.header.w, p.header.h, bipp) && ColoursOk(p, bipp, raw) &&
             Coloured(p, bipp)
  {
    var w, h := p.header.w, p.header.h;
    Bitmap(w, h,
           if p.header.ctype == PALETTED
           then PaletteImage(PlainRows(raw, w, h, bipp), w, h, bipp, p.plte.value.bytes, Sized(p.trns))
           else PixelsOf(raw, w, h, bipp, Whole(p.trns)))
  }

  /** What is asked of rows that are not too long: the colours, and room in an image of width zero. */
  ghost predicate PixelsOk(p: Parsed, bipp: nat, raw: seq<byte>) {
    && 0 < bipp <= 32 && |raw| == OutSize(p.header.w, p.header.h, bipp)
    && ColoursOk(p, bipp, raw) && NarrowOk(p.header.w, p.header.h, bipp, raw)
  }

  /** The bytes of a stream are the rows of an image, which is fine. */
  ghost predicate StreamPixelsOk(p: Parsed, bipp: nat, stream: seq<byte>) {
    var size := OutSize(p.header.w, p.header.h, bipp);
    |stream| <= size ==> PixelsOk(p, bipp, Filled(stream, size))
  }

  /** An image without columns has no pixels, whatever its rows became. */
  lemma SameImage(p: Parsed, bipp: nat, raw: seq<byte>, rows: seq<byte>)
    requires PixelsOk(p, bipp, raw) && |rows| == |raw| && (p.header.w > 0 ==> rows == raw)
    ensures ColoursOk(p, bipp, rows)
    ensures Coloured(p, bipp) ==> ImageOf(p, bipp, rows) == ImageOf(p, bipp, raw)
  {
    var w, h := p.header.w, p.header.h;
    hide OutSize, PlainRows, TransparentOk, NarrowOk;
    if w == 0 && Coloured(p, bipp) && p.header.ctype != PALETTED {
      NoPixels(raw, h, bipp, Whole(p.trns));
      NoPixels(rows, h, bipp, Whole(p.trns));
    }
  }

  lemma NoPixels(raw: seq<byte>, h: nat, bipp: nat, trns: Transparent)
    requires Convertible(raw, 0, h, bipp, trns)
    ensures PixelsOf(raw, 0, h, bipp, trns) == []
  {
    PixelCount(raw, 0, h, bipp, trns);
    hide PixelsOf, Convertible;
  }

  lemma StreamParts(p: Parsed, bipp: nat, stream: seq<byte>)
    requires StreamPixelsOk(p, bipp, stream)
    ensures var w, h, size := p.header.w, p.header.h, OutSize(p.header.w, p.header.h, bipp);
            |stream| <= size ==>
              && PixelsOk(p, bipp, Filled(stream, size)) && NarrowOk(w, h, bipp, Filled(stream, size))
              && ColoursOk(p, bipp, Filled(stream, size))
  {
    hide OutSize, Filled, NarrowOk, ColoursOk;
  }

  /** tigrBitmap, with the extra column. */
  method NewBuffer(w: nat, h: nat) returns (buffer: array<byte>)
    ensures fresh(buffer) && buffer[..] == Zeros(BufferLength(w, h))
  {
    buffer := new byte[BufferLength(w, h)](_ => 0);
  }

  /** The part of tigrLoadPng that works on the pixel buffer. */
  method DecodeImage(p: Parsed, bipp: nat, ghost blocks: seq<B.BlockDesc>, ghost tail: seq<bool>,
                     ghost stream: seq<byte>)
    returns (r: Option<Bitmap>)
    requires 0 < bipp <= 32 && Spells(p, blocks, tail, stream) && StreamPixelsOk(p, bipp, stream)
    ensures var w, h, size := p.header.w, p.header.h, OutSize(p.header.w, p.header.h, bipp);
            && (r.Some? <==> |stream| <= size && FiltersKnown(w, h, bipp, Filled(stream, size)) && Coloured(p, bipp))
            && (r.Some? ==> r.value == ImageOf(p, bipp, Filled(stream, size)))
  {
    hide *;
    var w, h := p.header.w, p.header.h;
    var buffer := NewBuffer(w, h);
    Placement(w, h, bipp);
    StreamParts(p, bipp, stream);
    var off := OutSize(w, h, 32) - OutSize(w, h, bipp);
    var ok;
    ghost var rows;
    ok, rows := RestoreRows(p, bipp, buffer, off, blocks, tail, stream);
    if !ok {
      return None;
    }
    SameImage(p, bipp, Filled(stream, OutSize(w, h, bipp)), rows);
    r := ColourRows(p, bipp, buffer, off, rows);
  }

  /** The lookup of palette colours, or the conversion. */
  method ColourRows(p: Parsed, bipp: nat, buffer: array<byte>, off: nat, ghost rows: seq<byte>)
    returns (r: Option<Bitmap>)
    requires 0 < bipp <= 32 && |rows| == OutSize(p.header.w, p.header.h, bipp) && ColoursOk(p, bipp, rows)
    requires |rows| <= OutSize(p.header.w, p.header.h, 32) && off == OutSize(p.header.w, p.header.h, 32) - |rows|
    requires off + |rows| <= buffer.Length
    requires buffer[off..off + |rows|] == PlainRows(rows, p.header.w, p.header.h, bipp)
    modifies buffer
    ensures r.Some? <==> Coloured(p, bipp)
    ensures r.Some? ==> r.value == ImageOf(p, bipp, rows)
  {
    hide KnownFilters, UndoRows, OutSize, RowSize, InPalette, PaletteImage;
    var w, h := p.header.w, p.header.h;
    if p.header.ctype == PALETTED {
      if p.plte.None? {
        return None;
      }
      r := DepaletteImage(w, h, bipp, p.plte.value.bytes, Sized(p.trns), buffer, off, rows);
    } else {
      if bipp % 8 != 0 {
        return None;
      }
      r := ConvertImage(w, h, bipp, Whole(p.trns), buffer, off, rows);
    }
  }

  /** The lookup and the finished bitmap. */
  method DepaletteImage(w: nat, h: nat, bipp: nat, plte: seq<byte>, trns: Transparent, buffer: array<byte>, off: nat,
                        ghost raw: seq<byte>)
    returns (r: Option<Bitmap>)
    requires PaletteDepth(bipp) && |raw| == OutSize(w, h, bipp) &&
             InPalette(PlainRows(raw, w, h, bipp), w, h, bipp, plte)
    requires OutSize(w, h, bipp) <= OutSize(w, h, 32) && off == OutSize(w, h, 32) - OutSize(w, h, bipp)
    requires off + |raw| <= buffer.Length && buffer[off..off + |raw|] == PlainRows(raw, w, h, bipp)
    modifies buffer
    ensures r == Some(Bitmap(w, h, PaletteImage(PlainRows(raw, w, h, bipp), w, h, bipp, plte, trns)))
  {
    ghost var rows := PlainRows(raw, w, h, bipp);
    RowSizes(w, bipp);
    assert AtEnd(off, |rows|, w, h, bipp);
    PixelsOfFlat(PaletteImage(rows, w, h, bipp, plte, trns));
    hide *;
    Depalette(buffer, off, w, h, bipp, plte, trns, rows);
    r := Some(Bitmap(w, h, Pixels(buffer[..4 * (w * h)])));
  }

  /** The conversion and the finished bitmap. */
  method ConvertImage(w: nat, h: nat, bipp: nat, trns: Transparent, buffer: array<byte>, off: nat, ghost raw: seq<byte>)
    returns (r: Option<Bitmap>)
    requires Convertible(raw, w, h, bipp, trns) && OutSize(w, h, bipp) <= OutSize(w, h, 32) &&
             off == OutSize(w, h, 32) - OutSize(w, h, bipp)
    requires off + |raw| <= buffer.Length
    requires buffer[off..off + |raw|] == UndoRows(raw, h, RowSize(w, bipp), RowSize(1, bipp), Zeros(RowSize(w, bipp)))
    modifies buffer
    ensures r == Some(Bitmap(w, h, PixelsOf(raw, w, h, bipp, trns)))
  {
    ghost var goal := PixelsOf(raw, w, h, bipp, trns);
    ghost var end := off + |raw|;
    assert buffer[..][off..end] == buffer[off..end];
    ConversionStarts(buffer[..], off, end, raw, w, h, bipp, trns);
    PixelCount(raw, w, h, bipp, trns);
    PixelsOfFlat(goal);
    hide *;
    ConvertRows(buffer, off, w, h, bipp / 8, trns, end, goal);
    r := Some(Bitmap(w, h, Pixels(buffer[..4 * (w * h)])));
  }

  // ---------- tigrLoadPng ----------

  /** What the chunks yield. */
  ghost function ParsedOf(chunks: seq<Chunk>): (p: Parsed)
    requires Readable(chunks) && ChunksOk(chunks)
    ensures p.header == HeaderOf(chunks)
  {
    Parsed(HeaderOf(chunks), Joined(AfterHeader(chunks)), PieceOf(chunks, PLTE), PieceOf(chunks, TRNS))
  }

  /** A header whose sizes do not overflow, with a depth the format knows; a well-formed stream; and
      no palette index or transparent colour beyond the end of the file, nor a loop beyond the buffer. */
  ghost predicate ImageOk(chunks: seq<Chunk>, blocks: seq<B.BlockDesc>, tail: seq<bool>)
    requires Readable(chunks) && ChunksOk(chunks)
  {
    && HeaderOf(chunks).depth in {1, 2, 4, 8}
    && (4 * HeaderOf(chunks).w + 5) * HeaderOf(chunks).h < 0x8000_0000
    && Inflates(chunks, blocks, tail)
    && StreamPixelsOk(ParsedOf(chunks), Bipp(chunks), Inflated(chunks, blocks, tail))
  }

  /** The files the theorem is about: chunks after the signature, and such an image where the checks pass. */
  ghost predicate Loadable(file: seq<byte>, chunks: seq<Chunk>, blocks: seq<B.BlockDesc>, tail: seq<bool>) {
    && |file| >= 8
    && (file[..8] == SIGNATURE ==>
          && ChunksOk(chunks) && file[8..] == FileBytes(chunks)
          && (Readable(chunks) ==> ImageOk(chunks, blocks, tail)))
  }

  /** The loader's verdict: everything is there, the stream is not too long, every filter is known,
      and the colours are complete. */
  ghost predicate Loads(file: seq<byte>, chunks: seq<Chunk>, blocks: seq<B.BlockDesc>, tail: seq<bool>)
    requires Loadable(file, chunks, blocks, tail)
  {
    && file[..8] == SIGNATURE && Readable(chunks)
    && |Inflated(chunks, blocks, tail)| <= NeededBytes(chunks)
    && (ImageParts(chunks, blocks, tail);
        FiltersKnown(HeaderOf(chunks).w, HeaderOf(chunks).h, Bipp(chunks), RawRows(chunks, blocks, tail)))
    && Coloured(ParsedOf(chunks), Bipp(chunks))
  }

  lemma ImageParts(chunks: seq<Chunk>, blocks: seq<B.BlockDesc>, tail: seq<bool>)
    requires Readable(chunks) && ChunksOk(chunks) && ImageOk(chunks, blocks, tail)
    ensures Inflates(chunks, blocks, tail)
    ensures StreamPixelsOk(ParsedOf(chunks), Bipp(chunks), Inflated(chunks, blocks, tail))
    ensures |Inflated(chunks, blocks, tail)| <= NeededBytes(chunks) ==>
              PixelsOk(ParsedOf(chunks), Bipp(chunks), RawRows(chunks, blocks, tail))
  {
    hide Inflates, PixelsOk, Bipp, Inflated, HeaderOf, Filled;
  }

  ghost function LoadedImage(file: seq<byte>, chunks: seq<Chunk>, blocks: seq<B.BlockDesc>, tail: seq<bool>): Bitmap
    requires Loadable(file, chunks, blocks, tail) && Loads(file, chunks, blocks, tail)
  {
    ImageParts(chunks, blocks, tail);
    ImageOf(ParsedOf(chunks), Bipp(chunks), RawRows(chunks, blocks, tail))
  }

  /** tigrLoadPng. */
  method Load(file: seq<byte>, ghost chunks: seq<Chunk>, ghost blocks: seq<B.BlockDesc>, ghost tail: seq<bool>)
    returns (r: Option<Bitmap>)
    requires Loadable(file, chunks, blocks, tail)
    ensures r.Some? <==> Loads(file, chunks, blocks, tail)
    ensures r.Some? ==> r.value == LoadedImage(file, chunks, blocks, tail)
  {
    hide FirstMatch, FileBytes, Joined, Get32, BitsOf, B.StreamOk, B.StreamBytes, ImageOf, Lsb, ColoursOk, Coloured,
         KnownFilters, NarrowOk, RowSize, OutSize, HasData, PieceOf, Filled, FiltersKnown,
         StreamPixelsOk, PixelsOk;
    var parsed := ReadChunks(file, chunks);
    if parsed.None? {
      return None;
    }
    ImageParts(chunks, blocks, tail);
    var bipp := PixelBits(parsed.value.header.ctype, parsed.value.header.depth);
    r := DecodeImage(parsed.value, bipp.value, blocks, tail, Inflated(chunks, blocks, tail));
  }

  /** Pixels of `b` bytes are those of their rows widened, with no filters. */
  lemma PixelsWide(raw: seq<byte>, w: nat, h: nat, b: nat)
    requires 1 <= b <= 4 && |raw| == OutSize(w, h, 8 * b)
    ensures Convertible(raw, w, h, 8 * b, None) && Convertible(WidenedRows(raw, w, h, b), w, h, 32, None)
    ensures PixelsOf(raw, w, h, 8 * b, None) == PixelsOf(WidenedRows(raw, w, h, b), w, h, 32, None)
    ensures KnownFilters(WidenedRows(raw, w, h, b), h, RowSize(w, 32))
  {
    var wide := WidenedRows(raw, w, h, b);
    RowSizes(w, 8 * b);
    RowSizes(w, 32);
    RowSizes(1, 32);
    UnreadAtStart(w, h, 8 * b);
    UnreadAtStart(w, h, 32);
    hide RowSize, Area, UndoRows, KnownFilters, Scan, WideRows, Unread;
    ScanWide(PlainRows(raw, w, h, 8 * b), w, b, 0, h);
    WideUnfiltered(PlainRows(raw, w, h, 8 * b), w, b, h, Zeros(4 * w));
  }

  function WidenedRows(raw: seq<byte>, w: nat, h: nat, b: nat): (wide: seq<byte>)
    requires 1 <= b <= 4 && |raw| == OutSize(w, h, 8 * b)
    ensures |wide| == OutSize(w, h, 32)
  {
    UnreadAtStart(w, h, 8 * b);
    UnreadAtStart(w, h, 32);
    WideRows(PlainRows(raw, w, h, 8 * b), w, b, 0, h)
  }

  /** Images of grey, grey with alpha, and colour, without a transparent colour: the pixels are those
      of the RGBA image whose rows hold their pixels widened, and no filters. */
  lemma ImageAsRgba(p: Parsed, raw: seq<byte>)
    requires p.header.ctype in {0, 2, 4, 6} && p.header.depth == 8 && p.trns.None?
    requires |raw| == OutSize(p.header.w, p.header.h, 8 * BytesPer(p))
    ensures BitsPerPixel(p.header.ctype, 8) == Some(8 * BytesPer(p)) && BitsPerPixel(6, 8) == Some(32)
    ensures ColoursOk(p, 8 * BytesPer(p), raw) && Coloured(p, 8 * BytesPer(p))
    ensures var wide := WidenedRows(raw, p.header.w, p.header.h, BytesPer(p));
            && ColoursOk(AsRgba(p), 32, wide) && Coloured(AsRgba(p), 32)
            && KnownFilters(wide, p.header.h, RowSize(p.header.w, 32))
            && ImageOf(p, 8 * BytesPer(p), raw) == ImageOf(AsRgba(p), 32, wide)
  {
    PixelsWide(raw, p.header.w, p.header.h, BytesPer(p));
    hide RowSize, OutSize, KnownFilters, PixelsOf, WidenedRows, PlainRows;
  }

  function BytesPer(p: Parsed): (b: nat)
    requires p.header.ctype in {0, 2, 4, 6}
    ensures 1 <= b <= 4
  {
    Samples(p.header.ctype)
  }

  function AsRgba(p: Parsed): Parsed { p.(header := p.header.(ctype := 6)) }

  /** A palette image whose rows fill their last byte, or that has one row, has the pixels the
      standard means; for any other size some rows come out wrong, by `Palette.PaletteAgrees`. */
  lemma PaletteImageByStandard(raw: seq<byte>, w: nat, h: nat, bipp: nat, plte: seq<byte>, trns: Transparent, x: nat,
                               y: nat)
    requires InPalette(raw, w, h, bipp, plte) && x < w && y < h && (w % PerByte(bipp) == 0 || h <= 1)
    ensures Prod(y, w) + x < w * h
    ensures var c := PaletteIndex(raw, TrueStride(w, bipp), bipp, x, y);
            3 * c + 2 < |plte| && PaletteImage(raw, w, h, bipp, plte, trns)[Prod(y, w) + x] == Colour(c, plte, trns)
  {
    SameForFullRows(raw, w, h, bipp);
    PixelNumber(w, h, x, y);
    hide Prod, PaletteIndex;
  }
}
