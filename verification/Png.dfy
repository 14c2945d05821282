/** Saving a bitmap and loading the file gives the bitmap back. */
module Png {
  import opened Bits
  import opened Bitmaps
  import opened BitWriter
  import opened Chunks
  import opened Filters
  import opened Convert
  import opened Wrappers
  import Huffman
  import B = Blocks
  import R = RunItems
  import S = SavePng
  import Symbols
  import L = LoadPng

  // ---------- the Sub filter and its inverse ----------

  /** The byte four to the left. */
  function Left(r: seq<byte>, i: nat): byte
    requires i < |r|
  {
    if i >= 4 then r[i - 4] else 0
  }

  lemma DifferenceAt(p: Pixel, left: Pixel, c: nat)
    requires c < 4
    ensures Difference(p, left)[c] == Minus(PixelBytes(p)[c], PixelBytes(left)[c])
  {}

  lemma RowParts(row: seq<Pixel>)
    requires row != []
    ensures RowBytes(row) == RowBytes(row[..|row| - 1]) + PixelBytes(row[|row| - 1])
    ensures SubRow(row)
         == SubRow(row[..|row| - 1]) + Difference(row[|row| - 1], if |row| == 1 then CLEAR else row[|row| - 2])
  {}

  lemma {:induction false} SubRowAt(row: seq<Pixel>, i: nat)
    requires i < 4 * |row|
    ensures SubRow(row)[i] == Minus(RowBytes(row)[i], Left(RowBytes(row), i))
    decreases |row|
  {
    var k := |row| - 1;
    var most, last := row[..k], row[k];
    RowParts(row);
    if i < 4 * k {
      SubRowAt(most, i);
      hide RowBytes, SubRow, Minus, Difference, PixelBytes;
    } else {
      var c := i - 4 * k;
      DifferenceAt(last, if k == 0 then CLEAR else row[k - 1], c);
      assert PixelBytes(CLEAR) == [0, 0, 0, 0];
      if k > 0 {
        RowParts(most);
        assert most[k - 1] == row[k - 1];
      }
      hide RowBytes, SubRow, Minus, Difference, PixelBytes;
    }
  }

  /** Undoing the Sub filter, whatever the row above. */
  lemma {:induction false} SubUndone(s: seq<byte>, r: seq<byte>, up: seq<byte>, n: nat)
    requires n <= |s| == |r| == |up|
    requires forall i :: 0 <= i < |s| ==> s[i] == Minus(r[i], Left(r, i))
    ensures Undo(1, s, up, 4, n) == r[..n]
  {
    if n != 0 {
      SubUndone(s, r, up, n - 1);
      var x := n - 1;
      UndoStep(1, s, up, 4, x);
      AddBack(r[x], Left(r, x));
      hide Undo, Minus;
      var before := r[..x];
      assert x >= 4 ==> before[x - 4] == r[x - 4];
      assert s[x] == Minus(r[x], Left(r, x));
      assert Undo(1, s, up, 4, n) == before + [r[x]];
    }
  }

  lemma AddBack(a: byte, b: byte)
    ensures (Minus(a, b) + b) % 256 == a
  {}

  lemma RowUndone(row: seq<Pixel>, up: seq<byte>)
    requires |up| == 4 * |row|
    ensures Undo(1, SubRow(row), up, 4, 4 * |row|) == RowBytes(row)
  {
    var s, r := SubRow(row), RowBytes(row);
    forall i | 0 <= i < |s|
      ensures s[i] == Minus(r[i], Left(r, i))
    {
      SubRowAt(row, i);
    }
    hide Undo, SubRow, RowBytes, Minus;
    SubUndone(s, r, up, |s|);
    assert r[..|s|] == r;
  }

  /** The rows from `y` on as the writer filters them, and as they were. */
  function FilteredFrom(bmp: Bitmap, y: nat): (s: seq<byte>)
    requires bmp.Valid() && y <= bmp.h
    ensures |s| == Area(bmp.h - y, 4 * bmp.w)
    decreases bmp.h - y
  {
    FirstOfRows(bmp.h - y, 4 * bmp.w);
    if y == bmp.h then [] else [1] + SubRow(bmp.Row(y)) + FilteredFrom(bmp, y + 1)
  }

  function PlainFrom(bmp: Bitmap, y: nat): (s: seq<byte>)
    requires bmp.Valid() && y <= bmp.h
    ensures |s| == Area(bmp.h - y, 4 * bmp.w)
    decreases bmp.h - y
  {
    FirstOfRows(bmp.h - y, 4 * bmp.w);
    if y == bmp.h then [] else [1] + RowBytes(bmp.Row(y)) + PlainFrom(bmp, y + 1)
  }

  lemma {:induction false} FilteredSplits(bmp: Bitmap, y: nat)
    requires bmp.Valid() && y <= bmp.h
    ensures FilteredRows(bmp, y) + FilteredFrom(bmp, y) == FilteredRows(bmp, bmp.h)
    decreases bmp.h - y
  {
    hide SubRow, Area, Bitmap.Row;
    if y < bmp.h {
      FilteredSplits(bmp, y + 1);
      var row := [1] + SubRow(bmp.Row(y));
      assert FilteredRows(bmp, y) + (row + FilteredFrom(bmp, y + 1))
          == FilteredRows(bmp, y) + row + FilteredFrom(bmp, y + 1);
    } else {
      assert FilteredFrom(bmp, y) == [];
    }
  }

  /** Undoing the filters of the saved rows. */
  lemma {:induction false} RowsUndone(bmp: Bitmap, y: nat, up: seq<byte>)
    requires bmp.Valid() && y <= bmp.h && |up| == 4 * bmp.w
    ensures UndoRows(FilteredFrom(bmp, y), bmp.h - y, 4 * bmp.w, 4, up) == PlainFrom(bmp, y)
    ensures KnownFilters(FilteredFrom(bmp, y), bmp.h - y, 4 * bmp.w)
    decreases bmp.h - y
  {
    hide *;
    var data, len := FilteredFrom(bmp, y), 4 * bmp.w;
    if y < bmp.h {
      var row := bmp.Row(y);
      FirstFiltered(bmp, y);
      FirstPlain(bmp, y);
      RowUndone(row, up);
      RowsUndone(bmp, y + 1, RowBytes(row));
      OneRowUndone(data, bmp.h - y, len, up, RowBytes(row), FilteredFrom(bmp, y + 1), PlainFrom(bmp, y + 1));
    } else {
      NoRowsFrom(bmp);
      NothingLeft(data, len, 4, up);
    }
  }

  lemma NoRowsFrom(bmp: Bitmap)
    requires bmp.Valid()
    ensures FilteredFrom(bmp, bmp.h) == [] && PlainFrom(bmp, bmp.h) == [] && Area(0, 4 * bmp.w) == 0
  {
    FirstOfRows(0, 4 * bmp.w);
  }

  lemma OneRowUndone(data: seq<byte>, h: nat, len: nat, up: seq<byte>, row: seq<byte>, rest: seq<byte>,
                     plain: seq<byte>)
    requires h > 0 && |data| == Area(h, len) && |up| == |row| == len && |data| >= 1 + len && data[0] == 1
    requires Undo(1, data[1..1 + len], up, 4, len) == row && data[1 + len..] == rest
    requires |rest| == Area(h - 1, len) && UndoRows(rest, h - 1, len, 4, row) == plain && KnownFilters(rest, h - 1, len)
    ensures UndoRows(data, h, len, 4, up) == [1] + row + plain && KnownFilters(data, h, len)
  {
    UndoRowsStep(data, h, len, 4, up);
    KnownStep(data, h, len);
    hide *;
  }

  lemma FirstPlain(bmp: Bitmap, y: nat)
    requires bmp.Valid() && y < bmp.h
    ensures PlainFrom(bmp, y) == [1] + RowBytes(bmp.Row(y)) + PlainFrom(bmp, y + 1)
  {
    hide RowBytes, Area, Bitmap.Row;
  }

  lemma FirstFiltered(bmp: Bitmap, y: nat)
    requires bmp.Valid() && y < bmp.h
    ensures var data, len := FilteredFrom(bmp, y), 4 * bmp.w;
            |data| >= 1 + len && data[0] == 1 && data[1..1 + len] == SubRow(bmp.Row(y)) &&
                data[1 + len..] == FilteredFrom(bmp, y + 1)
  {
    hide SubRow, Area, Bitmap.Row;
  }

  // ---------- reading the pixels back ----------

  lemma {:induction false} RowBytesFront(row: seq<Pixel>)
    requires row != []
    ensures RowBytes(row) == PixelBytes(row[0]) + RowBytes(row[1..])
  {
    var k := |row| - 1;
    if k > 0 {
      RowBytesFront(row[..k]);
      assert row[..k][1..] == row[1..][..k - 1] && row[1..][k - 1] == row[k];
    } else {
      assert row[..0] == [] && row[1..] == [];
    }
  }

  /** Scanning the bytes of some pixels. */
  lemma {:induction false} ScanPixels(row: seq<Pixel>, rest: seq<byte>, w: nat, rows: nat)
    requires |rest| == Unread(w, 4, 0, rows)
    ensures |RowBytes(row) + rest| == Unread(w, 4, |row|, rows)
    ensures Scan(RowBytes(row) + rest, w, 4, |row|, rows, None) == row + Scan(rest, w, 4, 0, rows, None)
    decreases |row|
  {
    UnreadStep(w, 4, |row|, rows);
    if row == [] {
      assert RowBytes(row) + rest == rest;
      hide Unread, Scan;
    } else {
      RowBytesFront(row);
      hide RowBytes, Unread, Scan;
      ScanPixels(row[1..], rest, w, rows);
      var s, more := RowBytes(row) + rest, RowBytes(row[1..]) + rest;
      FrontOf(PixelBytes(row[0]), RowBytes(row[1..]), rest);
      ScanPixel(s, w, 4, |row|, rows, None);
      assert ToPixel(s[..4], 4, None) == row[0];
      hide *;
      RowJoins(row, Scan(rest, w, 4, 0, rows, None));
    }
  }

  lemma RowJoins(row: seq<Pixel>, rest: seq<Pixel>)
    requires row != []
    ensures [row[0]] + (row[1..] + rest) == row + rest
  {}

  lemma FrontOf(a: seq<byte>, b: seq<byte>, c: seq<byte>)
    ensures ((a + b) + c)[..|a|] == a && ((a + b) + c)[|a|..] == b + c
  {}

  /** The pixels of the rows from `y` on. */
  function RowsFrom(bmp: Bitmap, y: nat): seq<Pixel>
    requires bmp.Valid() && y <= bmp.h
    decreases bmp.h - y
  {
    if y == bmp.h then [] else bmp.Row(y) + RowsFrom(bmp, y + 1)
  }

  lemma {:induction false} RowsAreAll(bmp: Bitmap, y: nat)
    requires bmp.Valid() && y <= bmp.h
    ensures y * bmp.w <= |bmp.pix| && RowsFrom(bmp, y) == bmp.pix[y * bmp.w..]
    decreases bmp.h - y
  {
    if y < bmp.h {
      RowsAreAll(bmp, y + 1);
      RowInRange(bmp.w, bmp.h, y);
      NextProduct(y, bmp.w);
      assert bmp.pix[y * bmp.w..] == bmp.Row(y) + bmp.pix[(y + 1) * bmp.w..];
    }
  }

  /** Scanning the plain rows gives the pixels. */
  lemma {:induction false} RowsScanned(bmp: Bitmap, y: nat)
    requires bmp.Valid() && y <= bmp.h
    ensures |PlainFrom(bmp, y)| == Unread(bmp.w, 4, 0, bmp.h - y)
    ensures Scan(PlainFrom(bmp, y), bmp.w, 4, 0, bmp.h - y, None) == RowsFrom(bmp, y)
    decreases bmp.h - y
  {
    hide Scan, Unread, Area, RowBytes, Bitmap.Row, Bitmap.Valid, PlainFrom, RowsFrom;
    UnreadAll(bmp.w, bmp.h - y);
    var s := PlainFrom(bmp, y);
    if y < bmp.h {
      RowsScanned(bmp, y + 1);
      var row, rest := bmp.Row(y), PlainFrom(bmp, y + 1);
      FirstPlain(bmp, y);
      assert s[1..] == RowBytes(row) + rest;
      ScanRow(s, bmp.w, 4, bmp.h - y, None);
      ScanPixels(row, rest, bmp.w, bmp.h - y - 1);
      RowsFromStep(bmp, y);
    } else {
      NothingScanned(bmp);
    }
  }

  lemma RowsFromStep(bmp: Bitmap, y: nat)
    requires bmp.Valid() && y < bmp.h
    ensures RowsFrom(bmp, y) == bmp.Row(y) + RowsFrom(bmp, y + 1)
  {
    hide Bitmap.Row;
  }

  lemma NothingScanned(bmp: Bitmap)
    requires bmp.Valid()
    ensures PlainFrom(bmp, bmp.h) == [] && RowsFrom(bmp, bmp.h) == [] && Unread(bmp.w, 4, 0, 0) == 0
    ensures Scan([], bmp.w, 4, 0, 0, None) == []
  {
    UnreadStep(bmp.w, 4, 0, 0);
    UnreadAll(bmp.w, 0);
    FirstOfRows(0, 4 * bmp.w);
    hide Area, Unread;
  }

  lemma NextProduct(y: nat, w: nat)
    ensures (y + 1) * w == y * w + w
  {}

  lemma UnreadAll(w: nat, rows: nat)
    ensures Unread(w, 4, 0, rows) == Area(rows, 4 * w)
  {
    assert w * 4 == 4 * w;
    hide Area;
  }

  // ---------- the file as the loader sees it ----------

  /** The three chunks the writer makes. */
  function SavedChunks(bmp: Bitmap, payload: seq<byte>, crcs: (nat, nat, nat)): seq<Chunk>
    requires bmp.w < 0x8000_0000 && bmp.h < 0x8000_0000
  {
    [Chunk(IHDR, S.HeaderData(bmp.w, bmp.h), crcs.0), Chunk(IDAT, payload, crcs.1), Chunk(IEND, [], crcs.2)]
  }

  lemma SavedFileIsChunks(file: seq<byte>, bmp: Bitmap, payload: seq<byte>, crcs: (nat, nat, nat))
    requires S.SavedFile(file, bmp, payload, crcs)
    ensures var chunks := SavedChunks(bmp, payload, crcs);
            ChunksOk(chunks) && |file| >= 8 && file[..8] == SIGNATURE && file[8..] == FileBytes(chunks)
  {
    hide S.HeaderData, ChunkBytes;
    var chunks := SavedChunks(bmp, payload, crcs);
    var a, b, c := ChunkBytes(IHDR, S.HeaderData(bmp.w, bmp.h), crcs.0), ChunkBytes(IDAT, payload, crcs.1),
        ChunkBytes(IEND, [], crcs.2);
    assert chunks[1..] == [chunks[1], chunks[2]] && chunks[1..][1..] == [chunks[2]] && [chunks[2]][1..] == [];
    assert FileBytes([chunks[2]]) == c + FileBytes([]) == c;
    assert FileBytes(chunks[1..]) == b + FileBytes([chunks[2]]);
    assert FileBytes(chunks) == a + (b + c);
    assert file == SIGNATURE + (a + (b + c));
  }

  lemma SavedMatches(bmp: Bitmap, payload: seq<byte>, crcs: (nat, nat, nat))
    requires bmp.w < 0x8000_0000 && bmp.h < 0x8000_0000 && ChunksOk(SavedChunks(bmp, payload, crcs))
    ensures var chunks := SavedChunks(bmp, payload, crcs);
            && L.HasHeader(chunks) && L.HeaderOf(chunks) == L.Header(bmp.w, bmp.h, 8, 6, 0, 0, 0)
            && HasData(L.AfterHeader(chunks)) && Joined(L.AfterHeader(chunks)) == payload
            && L.PieceOf(chunks, TRNS) == None
  {
    var chunks := SavedChunks(bmp, payload, crcs);
    HeaderParsed(bmp.w, bmp.h);
    hide S.HeaderData;
    assert FirstMatch(chunks, IHDR, 13) == 0;
    var after := chunks[1..];
    assert after == [chunks[1], chunks[2]] && after[1..] == [chunks[2]] && [chunks[2]][1..] == [];
    assert FirstMatch(after, IDAT, 0) == 0;
    assert FirstMatch([chunks[2]], IDAT, 0) == 1 + FirstMatch([], IDAT, 0) == 1;
    assert Joined(after) == payload + Joined(after[1..]) == payload + [];
    assert FirstMatch([chunks[2]], TRNS, 0) == 1 + FirstMatch([], TRNS, 0) == 1;
    assert FirstMatch(after, TRNS, 0) == 1 + FirstMatch([chunks[2]], TRNS, 0);
    assert FirstMatch(chunks, TRNS, 0) == 1 + FirstMatch(after, TRNS, 0);
  }

  lemma HeaderParsed(w: nat, h: nat)
    requires w < 0x8000_0000 && h < 0x8000_0000
    ensures L.ParseHeader(S.HeaderData(w, h)) == L.Header(w, h, 8, 6, 0, 0, 0)
  {
    Get32Back(w);
    Get32Back(h);
    hide BigEndian, Get32;
    var d := S.HeaderData(w, h);
    assert d[0..4] == BigEndian(w) && d[4..8] == BigEndian(h);
  }

  // ---------- the stream as the inflater sees it ----------

  /** The one block. */
  function SavedBlock(runs: seq<Run>): B.BlockDesc { B.FixedBlock(R.ItemsOfRuns(runs)) }

  lemma FixedBlockParts(items: seq<Symbols.Item>)
    requires B.CompressedOk(items, B.FixedLit(), B.FixedDist(), [])
    ensures B.BlockOk(B.FixedBlock(items), []) && B.AfterBlock(B.FixedBlock(items), []) == Symbols.Expand([], items)
    ensures B.BlockCode(B.FixedBlock(items), true, [])
              == [true] + (Lsb(1, 2) + B.CompressedCode(items, B.FixedLit(), B.FixedDist()))
  {
    hide B.CompressedCode, B.CompressedOk, Lsb, B.FixedLit, B.FixedDist, Symbols.Expand;
  }

  lemma CompressedRuns(runs: seq<Run>)
    requires Writable(runs)
    ensures B.CompressedOk(R.ItemsOfRuns(runs), B.FixedLit(), B.FixedDist(), [])
    ensures B.CompressedCode(R.ItemsOfRuns(runs), B.FixedLit(), B.FixedDist()) == RunsCode(runs) + FixedCode(256)
    ensures Symbols.Expand([], R.ItemsOfRuns(runs)) == Unrun(runs)
  {
    R.RunsAreItems(runs);
    R.FixedCodeIsCanonical(256);
    hide R.ItemsOfRuns, RunsCode, Unrun, FixedCode, Symbols.ItemsOk, Symbols.ItemsCode, Symbols.AllReach,
         Symbols.Expand,
      Huffman.CodeBits, B.FixedLit, B.FixedDist, Huffman.HasCode;
  }

  lemma SavedBlockOk(runs: seq<Run>)
    requires Writable(runs)
    ensures B.BlockOk(SavedBlock(runs), []) && B.AfterBlock(SavedBlock(runs), []) == Unrun(runs)
    ensures B.BlockCode(SavedBlock(runs), true, []) == S.FixedBlockBits(runs)
  {
    hide *;
    CompressedRuns(runs);
    FirstBits(runs);
    FixedBlockParts(R.ItemsOfRuns(runs));
    SavedBlockIs(runs);
  }

  lemma FirstBits(runs: seq<Run>)
    ensures [true] + (Lsb(1, 2) + (RunsCode(runs) + FixedCode(256))) == S.FixedBlockBits(runs)
  {
    FirstThreeBits();
    hide Lsb, RunsCode, FixedCode;
  }

  lemma SavedBlockIs(runs: seq<Run>)
    ensures SavedBlock(runs) == B.FixedBlock(R.ItemsOfRuns(runs))
  {}

  lemma FirstThreeBits()
    ensures Lsb(3, 3) == [true] + Lsb(1, 2)
  {}

  /** A whole stream of one block, with padding and two more bytes. */
  lemma SavedStream(payload: seq<byte>, runs: seq<Run>) returns (tail: seq<bool>)
    requires S.ZlibStream(payload, runs)
    ensures |payload| >= 6 && |tail| >= 16 &&
            B.StreamOk(BitsOf(payload[2..|payload| - 2]), [], [SavedBlock(runs)], tail)
    ensures B.StreamBytes([], [SavedBlock(runs)], BitsOf(payload[2..|payload| - 2]), tail) == Unrun(runs)
  {
    var k := |payload|;
    var pad: seq<bool> :| S.Padding(pad) && BitsOf(payload[2..k - 4]) == S.FixedBlockBits(runs) + pad;
    assert Writable(runs);
    tail := pad + BitsOf(payload[k - 4..k - 2]);
    hide *;
    SavedBlockOk(runs);
    TwoMore(payload, pad, S.FixedBlockBits(runs));
    FixedOne(runs);
    OneBlockStream(S.FixedBlockBits(runs), SavedBlock(runs), tail, BitsOf(payload[2..k - 2]));
  }

  lemma FixedOne(runs: seq<Run>)
    ensures SavedBlock(runs).FixedBlock?
  {}

  lemma TwoMore(payload: seq<byte>, pad: seq<bool>, code: seq<bool>)
    requires |payload| >= 6 && BitsOf(payload[2..|payload| - 4]) == code + pad
    ensures var k := |payload|;
            var tail := pad + BitsOf(payload[k - 4..k - 2]);
            |tail| >= 16 && BitsOf(payload[2..k - 2]) == code + tail
  {
    hide BitsOf;
    var k := |payload|;
    assert payload[2..k - 2] == payload[2..k - 4] + payload[k - 4..k - 2];
    BitsOfAppend(payload[2..k - 4], payload[k - 4..k - 2]);
  }

  lemma OneBlockStream(code: seq<bool>, b: B.BlockDesc, tail: seq<bool>, bits: seq<bool>)
    requires b.FixedBlock? && B.BlockOk(b, []) && code == B.BlockCode(b, true, []) && bits == code + tail
    ensures B.StreamOk(bits, [], [b], tail) && B.StreamBytes([], [b], bits, tail) == B.AfterBlock(b, [])
  {
    hide B.BlockOk, B.BlockCode, B.AfterBlock;
    assert bits[|code|..] == tail;
  }

  // ---------- the round trip ----------

  /** The rows of a bitmap, saved and read back. */
  lemma RowsComeBack(bmp: Bitmap)
    requires bmp.Valid() && |FilteredRows(bmp, bmp.h)| == Area(bmp.h, 4 * bmp.w)
    ensures KnownFilters(FilteredRows(bmp, bmp.h), bmp.h, 4 * bmp.w)
    ensures |UndoRows(FilteredRows(bmp, bmp.h), bmp.h, 4 * bmp.w, 4, Zeros(4 * bmp.w))| == Unread(bmp.w, 4, 0, bmp.h)
    ensures Scan(UndoRows(FilteredRows(bmp, bmp.h), bmp.h, 4 * bmp.w, 4, Zeros(4 * bmp.w)), bmp.w, 4, 0, bmp.h, None)
              == bmp.pix
  {
    FilteredSplits(bmp, 0);
    assert FilteredRows(bmp, 0) == [] && bmp.h - 0 == bmp.h;
    hide FilteredRows, Area, KnownFilters, UndoRows, Scan, Unread, FilteredFrom, PlainFrom;
    assert FilteredFrom(bmp, 0) == FilteredRows(bmp, bmp.h);
    RowsUndone(bmp, 0, Zeros(4 * bmp.w));
    RowsScanned(bmp, 0);
    RowsAreAll(bmp, 0);
    assert 0 * bmp.w == 0 && bmp.pix[0..] == bmp.pix;
  }

  lemma {:induction false} SubBytes(bmp: Bitmap, n: nat)
    requires bmp.Valid() && bmp.w == 0 && n <= bmp.h
    ensures forall i :: 0 <= i < |FilteredRows(bmp, n)| ==> FilteredRows(bmp, n)[i] == 1
  {
    if n != 0 {
      SubBytes(bmp, n - 1);
      assert SubRow(bmp.Row(n - 1)) == [];
    }
  }

  lemma SavedRowsFit(bmp: Bitmap)
    requires bmp.Valid() && bmp.h > 0 && (bmp.w > 0 || bmp.h > 1)
    ensures RowSize(bmp.w, 32) == 4 * bmp.w && RowSize(1, 32) == 4
    ensures |FilteredRows(bmp, bmp.h)| == L.OutSize(bmp.w, bmp.h, 32) == Area(bmp.h, 4 * bmp.w)
    ensures L.NarrowOk(bmp.w, bmp.h, 32, FilteredRows(bmp, bmp.h))
    ensures L.FiltersKnown(bmp.w, bmp.h, 32, FilteredRows(bmp, bmp.h))
         <==> bmp.w == 0 || KnownFilters(FilteredRows(bmp, bmp.h), bmp.h, 4 * bmp.w)
  {
    L.RowSizes(bmp.w, 32);
    L.RowSizes(1, 32);
    var rows := FilteredRows(bmp, bmp.h);
    if bmp.w == 0 {
      SubBytes(bmp, bmp.h);
      PlainEmptyRows(L.Filled(rows, 4 * bmp.h), 0, true, bmp.h, 4);
    }
    hide FilteredRows, RowSize, KnownFilters, EmptyRows, EmptyRowsFit;
  }

  /** The loader's buffer holds all that `unfilter` touches in the filtered rows of an RGBA image,
      except in the image of one row and no column, where the loop runs one byte past its end. */
  lemma LoopStaysInside(w: nat, h: nat)
    requires h > 0
    ensures (forall y: nat :: y < h ==>
               Reach(RowAt(0, RowSize(w, 32), y), RowSize(w, 32), RowSize(1, 32)) <= L.BufferLength(w, h))
       <==> w > 0 || h > 1
  {
    L.RowSizes(w, 32);
    L.RowSizes(1, 32);
    if w > 0 {
      forall y: nat | y < h
        ensures Reach(RowAt(0, 4 * w, y), 4 * w, 4) <= L.BufferLength(w, h)
      {
        RowInside(w, h, y);
      }
    } else {
      EmptyRowsReach(h);
    }
    hide RowSize, RowAt, Reach, L.BufferLength;
  }

  lemma RowInside(w: nat, h: nat, y: nat)
    requires w > 0 && y < h
    ensures Reach(RowAt(0, 4 * w, y), 4 * w, 4) <= L.BufferLength(w, h)
  {
    L.Placement(w, h, 32);
    L.RowSizes(w, 32);
    Wider(y + 1, h, 1 + 4 * w);
    assert Area(y, 4 * w) + (1 + 4 * w) == (y + 1) * (1 + 4 * w);
    hide L.BufferLength, RowSize;
    assert L.OutSize(w, h, 32) == h * (1 + 4 * w);
  }

  lemma EmptyRowsReach(h: nat)
    requires h > 0
    ensures (forall y: nat :: y < h ==> Reach(RowAt(0, 0, y), 0, 4) <= L.BufferLength(0, h)) <==> h > 1
  {
    assert forall y: nat :: Reach(RowAt(0, 0, y), 0, 4) == y + 5;
    assert L.BufferLength(0, h) == 4 * h;
    hide *;
    assert Reach(RowAt(0, 0, h - 1), 0, 4) == h - 1 + 5;
  }

  lemma SavedLoads(file: seq<byte>, bmp: Bitmap, payload: seq<byte>, crcs: (nat, nat, nat), runs: seq<Run>,
                   tail: seq<bool>)
    requires S.SavedFile(file, bmp, payload, crcs) && bmp.h > 0 && (bmp.w > 0 || bmp.h > 1)
    requires S.ZlibStream(payload, runs) && Unrun(runs) == FilteredRows(bmp, bmp.h)
    requires var bits := BitsOf(payload[2..|payload| - 2]);
             && |tail| >= 16 && B.StreamOk(bits, [], [SavedBlock(runs)], tail)
             && B.StreamBytes([], [SavedBlock(runs)], bits, tail) == Unrun(runs)
    ensures var chunks, blocks := SavedChunks(bmp, payload, crcs), [SavedBlock(runs)];
            && L.Loadable(file, chunks, blocks, tail) && L.Loads(file, chunks, blocks, tail)
            && L.LoadedImage(file, chunks, blocks, tail) == bmp
  {
    var chunks, blocks := SavedChunks(bmp, payload, crcs), [SavedBlock(runs)];
    var raw := FilteredRows(bmp, bmp.h);
    SavedFileIsChunks(file, bmp, payload, crcs);
    SavedMatches(bmp, payload, crcs);
    ZlibHeaderSaved(payload, runs);
    hide *;
    ReadableRgba(chunks, bmp.w, bmp.h, payload);
    SavedRowsFit(bmp);
    InflatesRgba(chunks, blocks, tail, raw, bmp.w, bmp.h, payload);
    RowsComeBack(bmp);
    PixelsRgba(raw, bmp);
    SavableSizes(file, bmp, payload, crcs);
    LoadsRgba(file, chunks, blocks, tail, raw, bmp);
  }

  lemma SavableSizes(file: seq<byte>, bmp: Bitmap, payload: seq<byte>, crcs: (nat, nat, nat))
    requires S.SavedFile(file, bmp, payload, crcs)
    ensures bmp.Valid() && (4 * bmp.w + 5) * bmp.h < 0x8000_0000
  {}

  lemma ZlibHeaderSaved(payload: seq<byte>, runs: seq<Run>)
    requires S.ZlibStream(payload, runs)
    ensures L.ZlibHeaderOk(payload)
  {
    assert payload[0] == payload[..2][0] && payload[1] == payload[..2][1];
  }

  lemma ReadableRgba(chunks: seq<Chunk>, w: nat, h: nat, payload: seq<byte>)
    requires L.HasHeader(chunks) && L.HeaderOf(chunks) == L.Header(w, h, 8, 6, 0, 0, 0)
    requires HasData(L.AfterHeader(chunks)) && Joined(L.AfterHeader(chunks)) == payload && L.ZlibHeaderOk(payload)
    ensures |payload| >= 6 && L.Readable(chunks) && L.Bipp(chunks) == 32
    ensures L.DeflateBits(chunks) == BitsOf(payload[2..|payload| - 2])
  {
    hide BitsOf, L.HasHeader, L.HeaderOf, L.AfterHeader, HasData, Joined;
  }

  lemma InflatesRgba(chunks: seq<Chunk>, blocks: seq<B.BlockDesc>, tail: seq<bool>, raw: seq<byte>, w: nat, h: nat,
                     payload: seq<byte>)
    requires L.Readable(chunks) && L.HeaderOf(chunks).w == w && L.HeaderOf(chunks).h == h && L.Bipp(chunks) == 32
    requires |payload| >= 6 && L.DeflateBits(chunks) == BitsOf(payload[2..|payload| - 2]) &&
             |raw| == L.OutSize(w, h, 32)
    requires |tail| >= 16 && B.StreamOk(BitsOf(payload[2..|payload| - 2]), [], blocks, tail)
    requires B.StreamBytes([], blocks, BitsOf(payload[2..|payload| - 2]), tail) == raw
    ensures L.Inflates(chunks, blocks, tail) && L.Inflated(chunks, blocks, tail) == raw
    ensures L.NeededBytes(chunks) == |raw| && L.RawRows(chunks, blocks, tail) == raw
  {
    assert raw + Zeros(0) == raw;
    hide BitsOf, L.HeaderOf, L.Readable, L.DeflateBits, L.Bipp, B.StreamOk, B.StreamBytes, L.OutSize;
  }

  lemma PixelsRgba(raw: seq<byte>, bmp: Bitmap)
    requires bmp.Valid() && RowSize(bmp.w, 32) == 4 * bmp.w && RowSize(1, 32) == 4
    requires |raw| == L.OutSize(bmp.w, bmp.h, 32) == Area(bmp.h, 4 * bmp.w)
    requires |UndoRows(raw, bmp.h, 4 * bmp.w, 4, Zeros(4 * bmp.w))| == Unread(bmp.w, 4, 0, bmp.h)
    requires Scan(UndoRows(raw, bmp.h, 4 * bmp.w, 4, Zeros(4 * bmp.w)), bmp.w, 4, 0, bmp.h, None) == bmp.pix
    ensures L.Convertible(raw, bmp.w, bmp.h, 32, None) && L.PixelsOf(raw, bmp.w, bmp.h, 32, None) == bmp.pix
  {
    hide L.OutSize, Area, UndoRows, Scan, Unread, RowSize, Zeros;
  }

  lemma LoadsRgba(file: seq<byte>, chunks: seq<Chunk>, blocks: seq<B.BlockDesc>, tail: seq<bool>, raw: seq<byte>,
                  bmp: Bitmap)
    requires |file| >= 8 && ChunksOk(chunks) && file[..8] == SIGNATURE && file[8..] == FileBytes(chunks)
    requires L.Readable(chunks) && L.HeaderOf(chunks) == L.Header(bmp.w, bmp.h, 8, 6, 0, 0, 0) && L.Bipp(chunks) == 32
    requires L.Inflates(chunks, blocks, tail) && L.PieceOf(chunks, TRNS) == None
    requires L.Inflated(chunks, blocks, tail) == raw == L.Filled(raw, |raw|) && L.NeededBytes(chunks) == |raw|
    requires (4 * bmp.w + 5) * bmp.h < 0x8000_0000 && |raw| == L.OutSize(bmp.w, bmp.h, 32)
    requires L.NarrowOk(bmp.w, bmp.h, 32, raw) && L.FiltersKnown(bmp.w, bmp.h, 32, raw)
    requires L.Convertible(raw, bmp.w, bmp.h, 32, None) && L.PixelsOf(raw, bmp.w, bmp.h, 32, None) == bmp.pix
    ensures L.Loadable(file, chunks, blocks, tail) && L.Loads(file, chunks, blocks, tail)
    ensures L.LoadedImage(file, chunks, blocks, tail) == bmp
  {
    hide FileBytes, L.HeaderOf, L.Readable, L.Bipp, L.Inflates, L.Inflated, L.PieceOf, L.NarrowOk, L.OutSize,
         L.FiltersKnown, L.PixelsOf, L.Filled;
  }

  /** Loading what saving wrote gives the same width, height and pixels. */
  method SaveThenLoad(bmp: Bitmap) returns (r: Option<Bitmap>)
    requires S.Savable(bmp) && bmp.h > 0 && (bmp.w > 0 || bmp.h > 1)
    ensures r == Some(bmp)
  {
    var file, payload, runs := S.SaveImage(bmp);
    ghost var crcs := S.CheckValues(bmp, payload);
    ghost var tail := SavedStream(payload, runs);
    SavedLoads(file, bmp, payload, crcs, runs, tail);
    hide *;
    r := L.Load(file, SavedChunks(bmp, payload, crcs), [SavedBlock(runs)], tail);
  }
}
