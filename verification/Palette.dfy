/** Palette images: indices packed into bytes, looked up in place. */
module Palette {
  import opened Basics
  import opened Bits
  import opened Bitmaps
  import opened Division
  import opened Filters
  import opened Convert
  import opened Symbols
  import opened Wrappers

  predicate PaletteDepth(bipp: nat) { bipp == 1 || bipp == 2 || bipp == 4 || bipp == 8 }

  // ---------- what a palette image means ----------

  /** How many indices a byte holds. */
  function PerByte(bipp: nat): nat
    requires PaletteDepth(bipp)
  {
    if bipp == 1 then 8 else if bipp == 2 then 4 else if bipp == 4 then 2 else 1
  }

  /** The index at column `x` out of its byte, the leftmost one in the high bits. */
  function IndexIn(v: byte, bipp: nat, x: nat): (c: byte)
    requires PaletteDepth(bipp)
  {
    if bipp == 8 then v
    else v / Pow2((PerByte(bipp) - 1 - x % PerByte(bipp)) * bipp) % Pow2(bipp)
  }

  lemma MiddleBits(s: seq<bool>, a: nat, b: nat)
    requires a + b <= |s|
    ensures MsbValue(s[a..a + b]) == MsbValue(s) / Pow2(|s| - (a + b)) % Pow2(b)
  {
    hide *;
    var m, t := s[..a], s[a..a + b];
    MsbValuePrefix(s, a + b);
    MsbValueConcat(m, t);
    assert m + t == s[..a + b];
    MsbValueBound(t);
    var p, q := Pow2(b), MsbValue(m);
    assert q * p == p * q;
    ModUnique(MsbValue(s[..a + b]), p, q, MsbValue(t));
  }

  /** Section 2.3 of RFC 2083: the indices lie in a byte one after another from its highest bit on. */
  lemma IndexIsBits(v: byte, bipp: nat, x: nat)
    requires PaletteDepth(bipp)
    ensures var a := x % PerByte(bipp) * bipp;
            a + bipp <= 8 && IndexIn(v, bipp, x) == MsbValue(Msb(v, 8)[a..a + bipp])
  {
    hide *;
    BitPowers();
    InByte(v, bipp, x);
    MsbValueOfMsb(v, 8);
    MiddleBits(Msb(v, 8), x % PerByte(bipp) * bipp, bipp);
  }

  lemma InByte(v: byte, bipp: nat, x: nat)
    requires PaletteDepth(bipp)
    ensures PerByte(bipp) > 0
    ensures var a := x % PerByte(bipp) * bipp;
            a + bipp <= 8 && IndexIn(v, bipp, x) == v / Pow2(8 - (a + bipp)) % Pow2(bipp)
  {
    var a, n := x % PerByte(bipp) * bipp, PerByte(bipp) - 1 - x % PerByte(bipp);
    assert n * bipp == 8 - (a + bipp);
    BitPowers();
    assert bipp == 8 ==> a == 0 && Pow2(8 - (a + bipp)) == 1;
    hide Pow2;
  }

  lemma {:induction false} MsbValueBound(s: seq<bool>)
    ensures MsbValue(s) < Pow2(|s|)
  {
    if s != [] { MsbValueBound(s[..|s| - 1]); }
  }

  /** Where the byte of column `x` in row `y` lies, when `stride` bytes lead from row to row. */
  function PlaceOf(stride: nat, bipp: nat, x: nat, y: nat): nat
    requires PaletteDepth(bipp)
  {
    Prod(y, stride) + 1 + x / PerByte(bipp)
  }

  lemma RowsWider(y: nat, a: nat, b: nat)
    requires a <= b
    ensures Prod(y, a) <= Prod(y, b)
  {}

  function PaletteIndex(raw: seq<byte>, stride: nat, bipp: nat, x: nat, y: nat): byte
    requires PaletteDepth(bipp)
  {
    var at := PlaceOf(stride, bipp, x, y);
    IndexIn(if at < |raw| then raw[at] else 0, bipp, x)
  }

  /** Sections 2.2 and 2.3 of RFC 2083: every row begins on a byte of its own, behind its filter byte. */
  function TrueStride(w: nat, bipp: nat): nat { 1 + RowSize(w, bipp) }

  /** depalette's: it does not step over a byte that a row uses only in part. */
  function SteppedStride(w: nat, bipp: nat): nat
    requires PaletteDepth(bipp)
  {
    1 + w / PerByte(bipp)
  }

  function Colour(c: byte, plte: seq<byte>, trns: Transparent): Pixel
    requires 3 * c + 2 < |plte|
  {
    Pixel(plte[3 * c], plte[3 * c + 1], plte[3 * c + 2], if trns.Some? && c < |trns.value| then trns.value[c] else 255)
  }

  /** A palette entry is a colour pixel, its alpha from the transparency data as far as that reaches. */
  lemma ColourIsPixel(c: byte, plte: seq<byte>, trns: Transparent)
    requires 3 * c + 2 < |plte|
    ensures trns.None? || c >= |trns.value| ==> Colour(c, plte, trns) == ToPixel(plte[3 * c..3 * c + 3], 3, None)
    ensures trns.Some? && c < |trns.value| ==>
              Colour(c, plte, trns) == ToPixel(plte[3 * c..3 * c + 3] + [trns.value[c]], 4, None)
  {}

  /** Every index is in the palette. */
  ghost predicate InPalette(raw: seq<byte>, w: nat, h: nat, bipp: nat, plte: seq<byte>) {
    PaletteDepth(bipp) &&
    forall x: nat, y: nat :: x < w && y < h ==> 3 * PaletteIndex(raw, SteppedStride(w, bipp), bipp, x, y) + 2 < |plte|
  }

  ghost function PixelAt(raw: seq<byte>, w: nat, h: nat, bipp: nat, plte: seq<byte>, trns: Transparent, p: nat): Pixel
    requires InPalette(raw, w, h, bipp, plte) && p < w * h
  {
    Inside(w, h, p);
    Colour(PaletteIndex(raw, SteppedStride(w, bipp), bipp, p % w, p / w), plte, trns)
  }

  lemma Inside(w: nat, h: nat, p: nat)
    requires p < w * h
    ensures w > 0 && p % w < w && p / w < h
  {
    if w > 0 {
      var q, r := DivMod(p, w);
      RowsWhole(h, q, w);
    }
  }

  lemma RowsWhole(h: nat, q: nat, w: nat)
    ensures h <= q ==> w * h <= w * q
  {}

  /** The pixels depalette makes. */
  ghost function PaletteImage(raw: seq<byte>, w: nat, h: nat, bipp: nat, plte: seq<byte>,
                              trns: Transparent): (pix: seq<Pixel>)
    requires InPalette(raw, w, h, bipp, plte)
    ensures |pix| == w * h
  {
    seq(w * h, p requires 0 <= p < w * h => PixelAt(raw, w, h, bipp, plte, trns, p))
  }

  // ---------- when that is what the standard means ----------

  ghost predicate SameIndices(raw: seq<byte>, w: nat, h: nat, bipp: nat)
    requires PaletteDepth(bipp)
  {
    forall x: nat, y: nat :: x < w && y < h ==>
      PaletteIndex(raw, SteppedStride(w, bipp), bipp, x, y) == PaletteIndex(raw, TrueStride(w, bipp), bipp, x, y)
  }

  /** A row fills its bytes, or leaves one partly used. */
  lemma Strides(w: nat, bipp: nat)
    requires PaletteDepth(bipp)
    ensures w % PerByte(bipp) == 0 ==> SteppedStride(w, bipp) == TrueStride(w, bipp)
    ensures w % PerByte(bipp) != 0 ==> SteppedStride(w, bipp) + 1 == TrueStride(w, bipp)
  {}

  lemma SameForFullRows(raw: seq<byte>, w: nat, h: nat, bipp: nat)
    requires PaletteDepth(bipp) && (w % PerByte(bipp) == 0 || h <= 1)
    ensures SameIndices(raw, w, h, bipp)
  {
    Strides(w, bipp);
    ProdNext(0, SteppedStride(w, bipp));
    ProdNext(0, TrueStride(w, bipp));
    hide Prod, SteppedStride, TrueStride, IndexIn, PerByte;
  }

  /** Index zero everywhere but in the first pixel of the second row. */
  function SecondRow(w: nat, h: nat, bipp: nat): (raw: seq<byte>)
    requires PaletteDepth(bipp)
    ensures |raw| == Area(h, RowSize(w, bipp))
  {
    seq(Area(h, RowSize(w, bipp)), i => if i == TrueStride(w, bipp) + 1 then 128 else 0)
  }

  lemma DiffersForPartRows(w: nat, h: nat, bipp: nat)
    requires PaletteDepth(bipp) && w % PerByte(bipp) != 0 && h >= 2
    ensures !SameIndices(SecondRow(w, h, bipp), w, h, bipp)
  {
    var raw := SecondRow(w, h, bipp);
    Strides(w, bipp);
    var s, t := SteppedStride(w, bipp), TrueStride(w, bipp);
    ProdNext(0, s);
    ProdNext(0, t);
    TwoRowsFit(w, h, bipp);
    HighBit(bipp);
    hide Prod, SteppedStride, TrueStride, IndexIn, Area, RowSize;
    assert PlaceOf(s, bipp, 0, 1) == s + 1 && PlaceOf(t, bipp, 0, 1) == t + 1;
    assert PaletteIndex(raw, s, bipp, 0, 1) != PaletteIndex(raw, t, bipp, 0, 1);
  }

  lemma HighBit(bipp: nat)
    requires PaletteDepth(bipp)
    ensures IndexIn(128, bipp, 0) != IndexIn(0, bipp, 0)
  {
    assert Pow2(4) == 16 && Pow2(6) == 64 && Pow2(7) == 128;
    hide Pow2;
  }

  lemma TwoRowsFit(w: nat, h: nat, bipp: nat)
    requires PaletteDepth(bipp) && w > 0 && h >= 2
    ensures TrueStride(w, bipp) + 1 < Area(h, RowSize(w, bipp))
  {
    var t := TrueStride(w, bipp);
    assert Area(h, RowSize(w, bipp)) == Prod(h, t);
    ProdNext(1, t);
    ProdNext(0, t);
    ProdOrder(2, h, t);
    RowNotEmpty(w, bipp);
    hide Prod;
  }

  lemma RowNotEmpty(w: nat, bipp: nat)
    requires PaletteDepth(bipp) && w > 0
    ensures RowSize(w, bipp) > 0
  {}

  /** For all the rows there are, depalette's indices are the standard's just when rows fill their
      last byte, or there is only one row. */
  lemma PaletteAgrees(w: nat, h: nat, bipp: nat)
    requires PaletteDepth(bipp)
    ensures (forall raw: seq<byte> :: |raw| == Area(h, RowSize(w, bipp)) ==> SameIndices(raw, w, h, bipp))
       <==> w % PerByte(bipp) == 0 || h <= 1
  {
    if w % PerByte(bipp) == 0 || h <= 1 {
      forall raw: seq<byte>
        ensures SameIndices(raw, w, h, bipp)
      {
        SameForFullRows(raw, w, h, bipp);
      }
    } else {
      DiffersForPartRows(w, h, bipp);
    }
    hide SameIndices, PerByte, SecondRow;
  }

  // ---------- the lookup in place ----------

  /** The rows lie at the end of the room for four bytes a pixel. */
  ghost predicate AtEnd(off: nat, size: nat, w: nat, h: nat, bipp: nat) {
    PaletteDepth(bipp) && size == Area(h, RowSize(w, bipp)) && off + size == Area(h, 4 * w)
  }

  /** The byte of a pixel lies inside the rows, and not below the place its pixel is written to. */
  lemma NotOverwritten(off: nat, size: nat, w: nat, h: nat, bipp: nat, x: nat, y: nat)
    requires AtEnd(off, size, w, h, bipp) && x < w && y < h
    ensures PlaceOf(SteppedStride(w, bipp), bipp, x, y) < size
    ensures Prod(y, 4 * w) + 4 * x <= off + PlaceOf(SteppedStride(w, bipp), bipp, x, y)
  {
    var r, s := RowSize(w, bipp), SteppedStride(w, bipp);
    Strides(w, bipp);
    Columns(w, bipp, x);
    assert Area(h, r) == Prod(h, 1 + r) && Area(h, 4 * w) == Prod(h, 1 + 4 * w);
    ProdNext(y, 1 + r);
    ProdOrder(y + 1, h, 1 + r);
    RowsWider(y, s, 1 + r);
    RowsWider(y, r, s);
    Spread(h, y, r, 4 * w);
    hide Prod, RowSize, SteppedStride, TrueStride, Area, PerByte;
  }

  lemma Columns(w: nat, bipp: nat, x: nat)
    requires PaletteDepth(bipp) && x < w
    ensures x / PerByte(bipp) < RowSize(w, bipp) <= 4 * w
    ensures RowSize(w, bipp) - x / PerByte(bipp) <= w - x + 1
  {}

  /** With `a <= b` bytes a row, `h` rows of the difference are no less than the first `y` of them
      and one more. */
  lemma Spread(h: nat, y: nat, a: nat, b: nat)
    requires y < h && a <= b
    ensures Prod(h, 1 + b) - Prod(h, 1 + a) >= Prod(y, b) - Prod(y, a) + (b - a)
  {
    var d := b - a;
    assert Prod(h, 1 + b) - Prod(h, 1 + a) == Prod(h, d) by { assert h * (1 + b) - h * (1 + a) == h * (b - a); }
    assert Prod(y, b) - Prod(y, a) == Prod(y, d) by { assert y * b - y * a == y * (b - a); }
    ProdNext(y, d);
    ProdOrder(y + 1, h, d);
    hide Prod;
  }

  /** The pixels made so far are at the front, and what is behind them is as it was. */
  ghost predicate Looking(buf: seq<byte>, off: nat, raw: seq<byte>, w: nat, h: nat, bipp: nat, plte: seq<byte>,
                          trns: Transparent, done: nat)
  {
    && AtEnd(off, |raw|, w, h, bipp) && InPalette(raw, w, h, bipp, plte)
    && off + |raw| <= |buf| && done <= w * h && 4 * done <= |buf|
    && buf[..4 * done] == Flat(PaletteImage(raw, w, h, bipp, plte, trns)[..done])
    && forall k :: 0 <= k < |raw| && off + k >= 4 * done ==> buf[off + k] == raw[k]
  }

  lemma PixelNumber(w: nat, h: nat, x: nat, y: nat)
    requires x < w && y < h
    ensures Prod(y, w) + x < w * h && (Prod(y, w) + x) % w == x && (Prod(y, w) + x) / w == y
    ensures Prod(y, 4 * w) == 4 * Prod(y, w)
  {
    ProdNext(y, w);
    ProdOrder(y + 1, h, w);
    assert Prod(h, w) == w * h && w * y == Prod(y, w);
    ModUnique(Prod(y, w) + x, w, y, x);
    assert y * (4 * w) == 4 * (y * w);
    hide Prod;
  }

  /** One pixel: its byte is still there, and its index is in the palette. */
  lemma LookUp(buf: seq<byte>, off: nat, raw: seq<byte>, w: nat, h: nat, bipp: nat, plte: seq<byte>, trns: Transparent,
               x: nat, y: nat)
    requires Looking(buf, off, raw, w, h, bipp, plte, trns, Prod(y, w) + x) && x < w && y < h
    ensures var at, p := off + PlaceOf(SteppedStride(w, bipp), bipp, x, y), Prod(y, w) + x;
            && at < |buf| && 4 * p + 4 <= |buf| && p < w * h
            && 3 * IndexIn(buf[at], bipp, x) + 2 < |plte|
            && Colour(IndexIn(buf[at], bipp, x), plte, trns) == PaletteImage(raw, w, h, bipp, plte, trns)[p]
  {
    PixelNumber(w, h, x, y);
    NotOverwritten(off, |raw|, w, h, bipp, x, y);
    RoomForAll(w, h, off, |raw|, bipp);
    hide Prod, IndexIn, PlaceOf, Flat, SteppedStride, Area, RowSize;
    assert 3 * PaletteIndex(raw, SteppedStride(w, bipp), bipp, x, y) + 2 < |plte|;
  }

  lemma RoomForAll(w: nat, h: nat, off: nat, size: nat, bipp: nat)
    requires AtEnd(off, size, w, h, bipp)
    ensures 4 * (w * h) <= off + size
  {
    assert Area(h, 4 * w) == h * (1 + 4 * w);
    hide *;
    FourEach(h, w);
  }

  lemma FourEach(h: nat, w: nat)
    ensures h * (1 + 4 * w) == h + 4 * (w * h)
  {
    assert h * (4 * w) == 4 * (w * h);
  }

  lemma LookedUp(now: seq<byte>, before: seq<byte>, off: nat, raw: seq<byte>, w: nat, h: nat, bipp: nat,
                 plte: seq<byte>, trns: Transparent, p: nat, pixel: Pixel)
    requires Looking(before, off, raw, w, h, bipp, plte, trns, p) && p < w * h && 4 * p + 4 <= |before| == |now|
    requires pixel == PaletteImage(raw, w, h, bipp, plte, trns)[p]
    requires now[..4 * p] == before[..4 * p] && now[4 * p..4 * p + 4] == PixelBytes(pixel) &&
             now[4 * p + 4..] == before[4 * p + 4..]
    ensures Looking(now, off, raw, w, h, bipp, plte, trns, p + 1)
  {
    var image := PaletteImage(raw, w, h, bipp, plte, trns);
    assert image[..p + 1] == image[..p] + [pixel];
    PrefixGrows(now, before, 4 * p, image[..p], pixel);
    hide Flat, InPalette, PaletteImage, AtEnd, PixelBytes;
    forall k | 0 <= k < |raw| && off + k >= 4 * (p + 1)
      ensures now[off + k] == raw[k]
    {
      assert now[off + k] == now[4 * p + 4..][off + k - (4 * p + 4)] == before[off + k];
    }
  }

  /** The index at column `x`, with the mask and the length of depalette's switch. */
  method ReadIndex(v: byte, bipp: nat, x: nat) returns (c: byte)
    requires PaletteDepth(bipp)
    ensures c == IndexIn(v, bipp, x)
  {
    if bipp == 8 {
      return v;
    }
    var mask, len := 1, 7;
    if bipp == 4 {
      mask, len := 15, 1;
    } else if bipp == 2 {
      mask, len := 3, 3;
    }
    var pos := x % (len + 1);
    SmallPowersOfTwo();
    hide Pow2;
    c := v / Pow2((len - pos) * bipp) % (mask + 1);
  }

  /** The colour of an index. */
  method ReadColour(c: byte, plte: seq<byte>, trns: Transparent) returns (p: Pixel)
    requires 3 * c + 2 < |plte|
    ensures p == Colour(c, plte, trns)
  {
    var alpha: byte := 255;
    if trns.Some? && c < |trns.value| {
      alpha := trns.value[c];
    }
    p := Pixel(plte[c * 3 + 0], plte[c * 3 + 1], plte[c * 3 + 2], alpha);
  }

  /** One turn of the inner loop. */
  method LookUpPixel(buf: array<byte>, src: nat, dest: nat, bipp: nat, plte: seq<byte>, trns: Transparent, x: nat,
                     ghost off: nat, ghost raw: seq<byte>, ghost w: nat, ghost h: nat, ghost y: nat)
    requires x < w && y < h && Looking(buf[..], off, raw, w, h, bipp, plte, trns, Prod(y, w) + x) && PaletteDepth(bipp)
    requires src == off + PlaceOf(SteppedStride(w, bipp), bipp, x, y) && dest == 4 * (Prod(y, w) + x)
    modifies buf
    ensures Looking(buf[..], off, raw, w, h, bipp, plte, trns, Prod(y, w) + x + 1)
  {
    hide *;
    LookUp(buf[..], off, raw, w, h, bipp, plte, trns, x, y);
    ghost var before := buf[..];
    var c := ReadIndex(buf[src], bipp, x);
    var pixel := ReadColour(c, plte, trns);
    buf[dest], buf[dest + 1], buf[dest + 2], buf[dest + 3] := pixel.r, pixel.g, pixel.b, pixel.a;
    BytesOf(pixel);
    assert buf[..][..dest] == before[..dest] && buf[..][dest + 4..] == before[dest + 4..];
    assert buf[..][dest..dest + 4] == [pixel.r, pixel.g, pixel.b, pixel.a];
    LookedUp(buf[..], before, off, raw, w, h, bipp, plte, trns, Prod(y, w) + x, pixel);
  }

  lemma BytesOf(p: Pixel)
    ensures PixelBytes(p) == [p.r, p.g, p.b, p.a]
  {}

  /** The step behind a byte's last index. */
  lemma NextPlace(w: nat, bipp: nat, x: nat, y: nat)
    requires PaletteDepth(bipp)
    ensures PlaceOf(SteppedStride(w, bipp), bipp, x + 1, y)
         == PlaceOf(SteppedStride(w, bipp), bipp, x, y) + if x % PerByte(bipp) == PerByte(bipp) - 1 then 1 else 0
    ensures PlaceOf(SteppedStride(w, bipp), bipp, 0, y) == Prod(y, SteppedStride(w, bipp)) + 1
    ensures PlaceOf(SteppedStride(w, bipp), bipp, w, y) == Prod(y + 1, SteppedStride(w, bipp))
  {
    ProdNext(y, SteppedStride(w, bipp));
    hide Prod;
  }

  /** depalette: the pixels end up at the front of the buffer whose end holds the rows. */
  method Depalette(buf: array<byte>, off: nat, w: nat, h: nat, bipp: nat, plte: seq<byte>, trns: Transparent,
                   ghost raw: seq<byte>)
    requires AtEnd(off, |raw|, w, h, bipp) && InPalette(raw, w, h, bipp, plte)
    requires off + |raw| <= buf.Length && buf[off..off + |raw|] == raw
    modifies buf
    ensures 4 * (w * h) <= buf.Length && buf[..4 * (w * h)] == Flat(PaletteImage(raw, w, h, bipp, plte, trns))
  {
    hide *;
    Begins(buf[..], off, w, h, bipp, plte, trns, raw);
    var src, dest: nat := off, 0;
    Depth(off, w, h, bipp, raw);
    ProdNext(0, SteppedStride(w, bipp));
    ProdNext(0, w);
    for y := 0 to h
      invariant src == off + Prod(y, SteppedStride(w, bipp)) && dest == 4 * Prod(y, w)
      invariant Looking(buf[..], off, raw, w, h, bipp, plte, trns, Prod(y, w))
    {
      src := src + 1;
      src, dest := LookUpRow(buf, src, dest, bipp, plte, trns, w, off, raw, h, y);
    }
    Ends(buf[..], off, w, h, bipp, plte, trns, raw);
  }

  /** One row. */
  method LookUpRow(buf: array<byte>, start: nat, destStart: nat, bipp: nat, plte: seq<byte>, trns: Transparent, w: nat,
                   ghost off: nat, ghost raw: seq<byte>, ghost h: nat, ghost y: nat) returns (src: nat, dest: nat)
    requires PaletteDepth(bipp) && y < h && Looking(buf[..], off, raw, w, h, bipp, plte, trns, Prod(y, w))
    requires start == off + Prod(y, SteppedStride(w, bipp)) + 1 && destStart == 4 * Prod(y, w)
    modifies buf
    ensures src == off + Prod(y + 1, SteppedStride(w, bipp)) && dest == 4 * Prod(y + 1, w)
    ensures Looking(buf[..], off, raw, w, h, bipp, plte, trns, Prod(y + 1, w))
  {
    hide *;
    src, dest := start, destStart;
    NextPlace(w, bipp, 0, y);
    PerByteIs(bipp);
    for x := 0 to w
      invariant src == off + PlaceOf(SteppedStride(w, bipp), bipp, x, y) && dest == 4 * (Prod(y, w) + x)
      invariant Looking(buf[..], off, raw, w, h, bipp, plte, trns, Prod(y, w) + x)
    {
      LookUpPixel(buf, src, dest, bipp, plte, trns, x, off, raw, w, h, y);
      NextPlace(w, bipp, x, y);
      if bipp == 8 || x % PerByte(bipp) == PerByte(bipp) - 1 {
        src := src + 1;
      }
      dest := dest + 4;
    }
    ProdNext(y, w);
  }

  lemma PerByteIs(bipp: nat)
    requires PaletteDepth(bipp)
    ensures PerByte(bipp) > 0 && forall x: nat :: bipp == 8 ==> x % PerByte(bipp) == PerByte(bipp) - 1
  {}

  lemma Depth(off: nat, w: nat, h: nat, bipp: nat, raw: seq<byte>)
    requires AtEnd(off, |raw|, w, h, bipp)
    ensures PaletteDepth(bipp)
  {}

  lemma Begins(buf: seq<byte>, off: nat, w: nat, h: nat, bipp: nat, plte: seq<byte>, trns: Transparent, raw: seq<byte>)
    requires AtEnd(off, |raw|, w, h, bipp) && InPalette(raw, w, h, bipp, plte)
    requires off + |raw| <= |buf| && buf[off..off + |raw|] == raw
    ensures Looking(buf, off, raw, w, h, bipp, plte, trns, 0)
  {
    hide AtEnd, InPalette, PaletteImage;
  }

  lemma Ends(buf: seq<byte>, off: nat, w: nat, h: nat, bipp: nat, plte: seq<byte>, trns: Transparent, raw: seq<byte>)
    requires Looking(buf, off, raw, w, h, bipp, plte, trns, Prod(h, w))
    ensures InPalette(raw, w, h, bipp, plte) && 4 * (w * h) <= |buf|
    ensures buf[..4 * (w * h)] == Flat(PaletteImage(raw, w, h, bipp, plte, trns))
  {
    assert Prod(h, w) == w * h;
    hide Prod, AtEnd, InPalette, Flat;
    var image := PaletteImage(raw, w, h, bipp, plte, trns);
    assert image[..w * h] == image;
  }
}
