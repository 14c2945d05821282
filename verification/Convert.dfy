/** Turning unfiltered rows into pixels inside the buffer they lie in. */
module Convert {
  import opened Bits
  import opened Bitmaps
  import opened Filters
  import opened Wrappers

  type Transparent = Option<seq<byte>>

  /** The transparency chunk is long enough for the bytes the loader looks at. */
  predicate TransparentOk(trns: Transparent, bypp: nat) {
    trns.Some? ==> (bypp == 1 ==> |trns.value| >= 1) && (bypp == 3 ==> |trns.value| >= 6)
  }

  /** One pixel out of `bypp` bytes. */
  function ToPixel(s: seq<byte>, bypp: nat, trns: Transparent): Pixel
    requires 1 <= bypp <= 4 && |s| >= bypp && TransparentOk(trns, bypp)
  {
    if bypp == 1 then Pixel(s[0], s[0], s[0], if trns.Some? && s[0] == trns.value[0] then 0 else 255)
    else if bypp == 2 then Pixel(s[0], s[0], s[0], s[1])
    else if bypp == 3 then
      Pixel(s[0], s[1], s[2],
            if trns.Some? && trns.value[1] == s[0] && trns.value[3] == s[1] && trns.value[5] == s[2] then 0 else 255)
    else Pixel(s[0], s[1], s[2], s[3])
  }

  // ---------- transparent colours by the standard ----------

  /** Section 4.2.9 of RFC 2083: the chunk holds a sample in two bytes, high byte first. */
  function SampleOf(t: seq<byte>, k: nat): nat
    requires 2 * k + 1 < |t|
  {
    var high: nat, low: nat := t[2 * k], t[2 * k + 1];
    256 * high + low
  }

  function GreyByStandard(c: byte, t: seq<byte>): Pixel
    requires |t| >= 2
  {
    Pixel(c, c, c, if c == SampleOf(t, 0) then 0 else 255)
  }

  function ColourByStandard(s: seq<byte>, t: seq<byte>): Pixel
    requires |s| == 3 && |t| >= 6
  {
    Pixel(s[0], s[1], s[2], if s[0] == SampleOf(t, 0) && s[1] == SampleOf(t, 1) && s[2] == SampleOf(t, 2) then 0
          else 255)
  }

  /** For grey images the loader compares with the high byte: for all the samples of an image it
      agrees with the standard just when both bytes are zero, or neither level occurs. */
  lemma GreyAgrees(samples: seq<byte>, t: seq<byte>)
    requires |t| >= 2
    ensures (forall k :: 0 <= k < |samples| ==> ToPixel([samples[k]], 1, Some(t)) == GreyByStandard(samples[k], t))
       <==> (t[0] == 0 && t[1] == 0) || (t[0] !in samples && (t[0] == 0 ==> t[1] !in samples))
  {
    forall k | 0 <= k < |samples|
      ensures ToPixel([samples[k]], 1, Some(t)) == GreyByStandard(samples[k], t) <==>
              (samples[k] == t[0] <==> t[0] == 0 && samples[k] == t[1])
    {}
    assert t[0] in samples ==> exists k :: 0 <= k < |samples| && samples[k] == t[0];
    assert t[1] in samples ==> exists k :: 0 <= k < |samples| && samples[k] == t[1];
    hide ToPixel, GreyByStandard;
  }

  /** On every image there is, it agrees just when the chunk names level zero. */
  lemma GreyAlwaysAgrees(t: seq<byte>)
    requires |t| >= 2
    ensures (forall c: byte :: ToPixel([c], 1, Some(t)) == GreyByStandard(c, t)) <==> t[0] == 0 && t[1] == 0
  {
    if t[0] != 0 {
      assert ToPixel([t[0]], 1, Some(t)) != GreyByStandard(t[0], t);
    } else if t[1] != 0 {
      assert ToPixel([0], 1, Some(t)) != GreyByStandard(0, t);
    }
  }

  /** Level 5 in the chunk makes black transparent. */
  lemma GreyDisagrees()
    ensures ToPixel([0], 1, Some([0, 5])) == Pixel(0, 0, 0, 0) && GreyByStandard(0, [0, 5]) == Pixel(0, 0, 0, 255)
    ensures ToPixel([5], 1, Some([0, 5])) == Pixel(5, 5, 5, 255) && GreyByStandard(5, [0, 5]) == Pixel(5, 5, 5, 0)
  {}

  /** For colour images it compares with the low bytes: it agrees on every colour just when the high
      bytes are zero, as the standard asks of 8-bit images. */
  lemma ColourAlwaysAgrees(t: seq<byte>)
    requires |t| >= 6
    ensures (forall r: byte, g: byte, b: byte :: ToPixel([r, g, b], 3, Some(t)) == ColourByStandard([r, g, b], t))
       <==> t[0] == 0 && t[2] == 0 && t[4] == 0
  {
    if t[0] != 0 || t[2] != 0 || t[4] != 0 {
      assert ToPixel([t[1], t[3], t[5]], 3, Some(t)) != ColourByStandard([t[1], t[3], t[5]], t);
    }
  }

  // ---------- rows in place ----------

  /** The bytes of `left` more pixels of a row, and of `rows` more rows behind their filter bytes. */
  function Unread(w: nat, bypp: nat, left: nat, rows: nat): nat { left * bypp + Area(rows, w * bypp) }

  lemma UnreadStep(w: nat, bypp: nat, left: nat, rows: nat)
    ensures Unread(w, bypp, 0, 0) == 0
    ensures left > 0 ==> Unread(w, bypp, left, rows) == bypp + Unread(w, bypp, left - 1, rows)
    ensures rows > 0 ==> Unread(w, bypp, 0, rows) == 1 + Unread(w, bypp, w, rows - 1)
  {
    FirstOfRows(rows, w * bypp);
    if left > 0 {
      OneMore(left, bypp);
    }
  }

  /** The conversion out of place: pixel after pixel, row after row. */
  function Scan(s: seq<byte>, w: nat, bypp: nat, left: nat, rows: nat, trns: Transparent): (pix: seq<Pixel>)
    requires 1 <= bypp <= 4 && TransparentOk(trns, bypp) && |s| == Unread(w, bypp, left, rows)
    decreases rows, left
  {
    UnreadStep(w, bypp, left, rows);
    if left > 0 then [ToPixel(s[..bypp], bypp, trns)] + Scan(s[bypp..], w, bypp, left - 1, rows, trns)
    else if rows > 0 then Scan(s[1..], w, bypp, w, rows - 1, trns)
    else []
  }

  /** Pixels as the buffer holds them. */
  function Flat(pix: seq<Pixel>): (s: seq<byte>)
    ensures |s| == 4 * |pix|
  {
    if pix == [] then [] else Flat(pix[..|pix| - 1]) + PixelBytes(pix[|pix| - 1])
  }

  lemma FlatAppend(pix: seq<Pixel>, p: Pixel)
    ensures Flat(pix + [p]) == Flat(pix) + PixelBytes(p)
  {
    assert (pix + [p])[..|pix|] == pix;
  }

  function PixelsLeft(left: nat, rows: nat, w: nat): nat { left + rows * w }

  lemma PixelsLeftStep(left: nat, rows: nat, w: nat)
    ensures PixelsLeft(0, 0, w) == 0
    ensures left > 0 ==> PixelsLeft(left, rows, w) == 1 + PixelsLeft(left - 1, rows, w)
    ensures rows > 0 ==> PixelsLeft(0, rows, w) == PixelsLeft(w, rows - 1, w)
  {
    if rows > 0 {
      OneMore(rows, w);
    }
  }

  /** `got` is written at the start of the buffer, the unread bytes lie behind it up to `end`,
      with at least (4 - bypp) bytes of room for every pixel to come. */
  ghost predicate ScanUnderWay(buf: seq<byte>, src: nat, dest: nat, end: nat, w: nat, bypp: nat, left: nat, rows: nat,
                               trns: Transparent, got: seq<Pixel>, goal: seq<Pixel>) {
    && 1 <= bypp <= 4 && TransparentOk(trns, bypp)
    && src <= end <= |buf| && end - src == Unread(w, bypp, left, rows)
    && dest == 4 * |got| && Room(src, dest, bypp, PixelsLeft(left, rows, w))
    && buf[..dest] == Flat(got)
    && got + Scan(buf[src..end], w, bypp, left, rows, trns) == goal
  }

  /** No unread byte is in the way of the pixels to come. */
  ghost predicate Room(src: nat, dest: nat, bypp: nat, pixels: nat) {
    bypp <= 4 && src >= dest + (4 - bypp) * pixels && dest <= src
  }

  lemma RoomStep(src: nat, dest: nat, bypp: nat, pixels: nat)
    requires Room(src, dest, bypp, pixels) && pixels > 0
    ensures src + bypp >= dest + 4 && Room(src + bypp, dest + 4, bypp, pixels - 1)
  {
    OneMore(pixels, 4 - bypp);
  }

  /** The switch over the bytes of a pixel. */
  method ReadPixel(buf: array<byte>, src: nat, bypp: nat, trns: Transparent) returns (p: Pixel)
    requires 1 <= bypp <= 4 && src + bypp <= buf.Length && TransparentOk(trns, bypp)
    ensures p == ToPixel(buf[src..src + bypp], bypp, trns)
  {
    if bypp == 1 {
      var c := buf[src];
      p := Pixel(c, c, c, if trns.Some? && c == trns.value[0] then 0 else 255);
    } else if bypp == 2 {
      p := Pixel(buf[src], buf[src], buf[src], buf[src + 1]);
    } else if bypp == 3 {
      var r, g, b := buf[src], buf[src + 1], buf[src + 2];
      var clear := trns.Some? && trns.value[1] == r && trns.value[3] == g && trns.value[5] == b;
      p := Pixel(r, g, b, if clear then 0 else 255);
    } else {
      p := Pixel(buf[src], buf[src + 1], buf[src + 2], buf[src + 3]);
    }
  }

  /** One pixel: the four bytes it is written to are read already, or belong to this pixel. */
  method ConvertPixel(buf: array<byte>, src: nat, dest: nat, bypp: nat, trns: Transparent, ghost end: nat, ghost w: nat,
                      ghost left: nat, ghost rows: nat, ghost got: seq<Pixel>, ghost goal: seq<Pixel>)
    returns (ghost p: Pixel)
    requires left > 0 && ScanUnderWay(buf[..], src, dest, end, w, bypp, left, rows, trns, got, goal)
    modifies buf
    ensures ScanUnderWay(buf[..], src + bypp, dest + 4, end, w, bypp, left - 1, rows, trns, got + [p], goal)
  {
    ReadAhead(buf[..], src, dest, end, w, bypp, left, rows, trns, got, goal);
    hide ToPixel, ScanUnderWay;
    ghost var before := buf[..];
    var pixel := ReadPixel(buf, src, bypp, trns);
    p := pixel;
    assert before[src..src + bypp] == buf[src..src + bypp];
    buf[dest], buf[dest + 1], buf[dest + 2], buf[dest + 3] := pixel.r, pixel.g, pixel.b, pixel.a;
    assert buf[..][..dest] == before[..dest] && buf[..][dest..dest + 4] == PixelBytes(p) &&
           buf[..][dest + 4..] == before[dest + 4..];
    PixelDone(buf[..], before, src, dest, end, w, bypp, left, rows, trns, got, goal, p);
  }

  lemma ReadAhead(buf: seq<byte>, src: nat, dest: nat, end: nat, w: nat, bypp: nat, left: nat, rows: nat,
                  trns: Transparent, got: seq<Pixel>, goal: seq<Pixel>)
    requires left > 0 && ScanUnderWay(buf, src, dest, end, w, bypp, left, rows, trns, got, goal)
    ensures 1 <= bypp <= 4 && TransparentOk(trns, bypp) && src + bypp <= end <= |buf| && dest + 4 <= src + bypp
  {
    UnreadStep(w, bypp, left, rows);
    PixelsLeftStep(left, rows, w);
    RoomStep(src, dest, bypp, PixelsLeft(left, rows, w));
    hide Unread, Scan, Flat, Room, PixelsLeft;
  }

  lemma PixelDone(now: seq<byte>, before: seq<byte>, src: nat, dest: nat, end: nat, w: nat, bypp: nat, left: nat,
                  rows: nat, trns: Transparent, got: seq<Pixel>, goal: seq<Pixel>, p: Pixel)
    requires left > 0 && ScanUnderWay(before, src, dest, end, w, bypp, left, rows, trns, got, goal)
    requires src + bypp <= end <= |before| == |now| && dest + 4 <= src + bypp &&
             p == ToPixel(before[src..src + bypp], bypp, trns)
    requires now[..dest] == before[..dest] && now[dest..dest + 4] == PixelBytes(p) &&
             now[dest + 4..] == before[dest + 4..]
    ensures ScanUnderWay(now, src + bypp, dest + 4, end, w, bypp, left - 1, rows, trns, got + [p], goal)
  {
    UnreadStep(w, bypp, left, rows);
    PixelsLeftStep(left, rows, w);
    RoomStep(src, dest, bypp, PixelsLeft(left, rows, w));
    hide ToPixel, Unread, Room, Scan, Flat, PixelBytes, PixelsLeft, TransparentOk;
    Behind4(now, before, dest + 4, src + bypp, end);
    ScanAdvances(before, src, end, w, bypp, left, rows, trns, got, goal, p);
    PrefixGrows(now, before, dest, got, p);
    assert Room(src + bypp, dest + 4, bypp, PixelsLeft(left - 1, rows, w));
    assert now[src + bypp..end] == before[src + bypp..end];
    assert dest + 4 == 4 * |got + [p]|;
  }

  lemma PrefixGrows(now: seq<byte>, before: seq<byte>, dest: nat, got: seq<Pixel>, p: Pixel)
    requires dest + 4 <= |now| == |before| && before[..dest] == Flat(got)
    requires now[..dest] == before[..dest] && now[dest..dest + 4] == PixelBytes(p)
    ensures now[..dest + 4] == Flat(got + [p])
  {
    FlatAppend(got, p);
    hide Flat;
    assert now[..dest + 4] == now[..dest] + now[dest..dest + 4];
  }

  lemma ScanAdvances(before: seq<byte>, src: nat, end: nat, w: nat, bypp: nat, left: nat, rows: nat,
                     trns: Transparent, got: seq<Pixel>, goal: seq<Pixel>, p: Pixel)
    requires left > 0 && 1 <= bypp <= 4 && TransparentOk(trns, bypp)
    requires src + bypp <= end <= |before| && end - src == Unread(w, bypp, left, rows)
    requires p == ToPixel(before[src..src + bypp], bypp, trns) &&
             got + Scan(before[src..end], w, bypp, left, rows, trns) == goal
    ensures end - (src + bypp) == Unread(w, bypp, left - 1, rows)
    ensures got + [p] + Scan(before[src + bypp..end], w, bypp, left - 1, rows, trns) == goal
  {
    ScanPixel(before[src..end], w, bypp, left, rows, trns);
    Subslice(before, src, end, 0, bypp);
    Subslice(before, src, end, bypp, end - src);
    hide *;
    var rest := Scan(before[src + bypp..end], w, bypp, left - 1, rows, trns);
    assert got + ([p] + rest) == got + [p] + rest;
  }

  lemma Behind4(a: seq<byte>, b: seq<byte>, from: nat, lo: nat, hi: nat)
    requires from <= lo <= hi <= |a| == |b| && a[from..] == b[from..]
    ensures a[lo..hi] == b[lo..hi]
  {
    Subslice(a, from, |a|, lo - from, hi - from);
    Subslice(b, from, |b|, lo - from, hi - from);
  }

  lemma ScanPixel(s: seq<byte>, w: nat, bypp: nat, left: nat, rows: nat, trns: Transparent)
    requires 1 <= bypp <= 4 && TransparentOk(trns, bypp) && |s| == Unread(w, bypp, left, rows) && left > 0
    ensures bypp <= |s| && |s[bypp..]| == Unread(w, bypp, left - 1, rows)
    ensures Scan(s, w, bypp, left, rows, trns)
              == [ToPixel(s[..bypp], bypp, trns)] + Scan(s[bypp..], w, bypp, left - 1, rows, trns)
  {
    UnreadStep(w, bypp, left, rows);
    hide ToPixel, Unread;
  }

  lemma ScanRow(s: seq<byte>, w: nat, bypp: nat, rows: nat, trns: Transparent)
    requires 1 <= bypp <= 4 && TransparentOk(trns, bypp) && |s| == Unread(w, bypp, 0, rows) && rows > 0
    ensures 1 <= |s| && |s[1..]| == Unread(w, bypp, w, rows - 1)
    ensures Scan(s, w, bypp, 0, rows, trns) == Scan(s[1..], w, bypp, w, rows - 1, trns)
  {
    UnreadStep(w, bypp, 0, rows);
    hide ToPixel, Unread;
  }

  // ---------- every kind of pixel as four bytes ----------

  /** A pixel of fewer bytes as red, green, blue and alpha: grey in all three colours, and opaque
      where nothing is said of alpha. */
  function WidePixel(s: seq<byte>): (t: seq<byte>)
    requires 1 <= |s| <= 4
    ensures |t| == 4
  {
    if |s| == 1 then [s[0], s[0], s[0], 255]
    else if |s| == 2 then [s[0], s[0], s[0], s[1]]
    else if |s| == 3 then s + [255]
    else s
  }

  /** Rows of such pixels, without filters. */
  function WideRows(s: seq<byte>, w: nat, bypp: nat, left: nat, rows: nat): (t: seq<byte>)
    requires 1 <= bypp <= 4 && |s| == Unread(w, bypp, left, rows)
    ensures |t| == Unread(w, 4, left, rows)
    decreases rows, left
  {
    UnreadStep(w, bypp, left, rows);
    UnreadStep(w, 4, left, rows);
    if left > 0 then WidePixel(s[..bypp]) + WideRows(s[bypp..], w, bypp, left - 1, rows)
    else if rows > 0 then [0] + WideRows(s[1..], w, bypp, w, rows - 1)
    else []
  }

  lemma WidePixelIsPixel(s: seq<byte>)
    requires 1 <= |s| <= 4
    ensures ToPixel(WidePixel(s), 4, None) == ToPixel(s, |s|, None)
  {}

  lemma WideStep(s: seq<byte>, w: nat, bypp: nat, left: nat, rows: nat)
    requires 1 <= bypp <= 4 && |s| == Unread(w, bypp, left, rows)
    ensures left > 0 ==>
              && bypp <= |s| && |s[bypp..]| == Unread(w, bypp, left - 1, rows)
              && WideRows(s, w, bypp, left, rows) == WidePixel(s[..bypp]) + WideRows(s[bypp..], w, bypp, left - 1, rows)
    ensures left == 0 && rows > 0 ==>
              && 1 <= |s| && |s[1..]| == Unread(w, bypp, w, rows - 1)
              && WideRows(s, w, bypp, left, rows) == [0] + WideRows(s[1..], w, bypp, w, rows - 1)
  {
    UnreadStep(w, bypp, left, rows);
    hide WidePixel, Unread;
  }

  /** Without a transparent colour, pixels of any kind are those of the widened rows. */
  lemma {:induction false} ScanWide(s: seq<byte>, w: nat, bypp: nat, left: nat, rows: nat)
    requires 1 <= bypp <= 4 && |s| == Unread(w, bypp, left, rows)
    ensures Scan(s, w, bypp, left, rows, None) == Scan(WideRows(s, w, bypp, left, rows), w, 4, left, rows, None)
    decreases rows, left
  {
    var t := WideRows(s, w, bypp, left, rows);
    WideStep(s, w, bypp, left, rows);
    hide ToPixel, WidePixel, Unread, Scan, WideRows;
    if left > 0 {
      var first, rest := s[..bypp], s[bypp..];
      var u := WideRows(rest, w, bypp, left - 1, rows);
      assert t[..4] == WidePixel(first) && t[4..] == u;
      WidePixelIsPixel(first);
      ScanPixel(s, w, bypp, left, rows, None);
      ScanPixel(t, w, 4, left, rows, None);
      ScanWide(rest, w, bypp, left - 1, rows);
    } else if rows > 0 {
      assert t[1..] == WideRows(s[1..], w, bypp, w, rows - 1);
      ScanRow(s, w, bypp, rows, None);
      ScanRow(t, w, 4, rows, None);
      ScanWide(s[1..], w, bypp, w, rows - 1);
    } else {
      NothingToScan(s, w, bypp);
      NothingToScan(t, w, 4);
    }
  }

  lemma NothingToScan(s: seq<byte>, w: nat, bypp: nat)
    requires 1 <= bypp <= 4 && |s| == Unread(w, bypp, 0, 0)
    ensures Scan(s, w, bypp, 0, 0, None) == []
  {}

  /** What lies behind the pixels that are left in a row. */
  function RowsBehind(s: seq<byte>, w: nat, bypp: nat, left: nat, rows: nat): (t: seq<byte>)
    requires 1 <= bypp <= 4 && |s| == Unread(w, bypp, left, rows)
    ensures |t| == Unread(w, bypp, 0, rows)
    decreases left
  {
    UnreadStep(w, bypp, left, rows);
    if left == 0 then s else RowsBehind(s[bypp..], w, bypp, left - 1, rows)
  }

  lemma BehindStep(s: seq<byte>, w: nat, bypp: nat, left: nat, rows: nat)
    requires 1 <= bypp <= 4 && |s| == Unread(w, bypp, left, rows) && left > 0
    ensures bypp <= |s| && |s[bypp..]| == Unread(w, bypp, left - 1, rows)
    ensures RowsBehind(s, w, bypp, left, rows) == RowsBehind(s[bypp..], w, bypp, left - 1, rows)
  {
    UnreadStep(w, bypp, left, rows);
    hide Unread;
  }

  lemma {:induction false} WideRest(s: seq<byte>, w: nat, bypp: nat, left: nat, rows: nat)
    requires 1 <= bypp <= 4 && |s| == Unread(w, bypp, left, rows)
    ensures 4 * left <= |WideRows(s, w, bypp, left, rows)|
    ensures WideRows(s, w, bypp, left, rows)[4 * left..]
         == WideRows(RowsBehind(s, w, bypp, left, rows), w, bypp, 0, rows)
    decreases left
  {
    hide WidePixel, Unread, WideRows;
    var t := WideRows(s, w, bypp, left, rows);
    if left > 0 {
      WideStep(s, w, bypp, left, rows);
      BehindStep(s, w, bypp, left, rows);
      WideRest(s[bypp..], w, bypp, left - 1, rows);
      var u := WideRows(s[bypp..], w, bypp, left - 1, rows);
      assert t[4..] == u && u[4 * (left - 1)..] == t[4 * left..];
    }
  }

  /** The widened rows have no filters, so that undoing them changes nothing. */
  lemma {:induction false} WideUnfiltered(s: seq<byte>, w: nat, bypp: nat, rows: nat, up: seq<byte>)
    requires 1 <= bypp <= 4 && |s| == Unread(w, bypp, 0, rows) && |up| == 4 * w
    ensures var t := WideRows(s, w, bypp, 0, rows);
            |t| == Area(rows, 4 * w) && UndoRows(t, rows, 4 * w, 4, up) == t && KnownFilters(t, rows, 4 * w)
    decreases rows
  {
    hide *;
    var t, len := WideRows(s, w, bypp, 0, rows), 4 * w;
    AreaOfWide(w, rows);
    if rows > 0 {
      WideStep(s, w, bypp, 0, rows);
      WideRest(s[1..], w, bypp, w, rows - 1);
      var below := RowsBehind(s[1..], w, bypp, w, rows - 1);
      AreaOfWide(w, rows - 1);
      assert t[1..][len..] == t[1 + len..];
      PlainRowFirst(t, rows, len, up, WideRows(below, w, bypp, 0, rows - 1));
      WideUnfiltered(below, w, bypp, rows - 1, t[1..1 + len]);
    } else {
      FirstOfRows(0, len);
      NothingLeft(t, len, 4, up);
    }
  }

  /** A row without a filter is left alone. */
  lemma PlainRowFirst(t: seq<byte>, rows: nat, len: nat, up: seq<byte>, rest: seq<byte>)
    requires rows > 0 && |t| == Area(rows, len) && |up| == len && |t| >= 1 + len && t[0] == 0 && t[1 + len..] == rest
    requires |rest| == Area(rows - 1, len)
    ensures UndoRows(rest, rows - 1, len, 4, t[1..1 + len]) == rest ==> UndoRows(t, rows, len, 4, up) == t
    ensures KnownFilters(rest, rows - 1, len) ==> KnownFilters(t, rows, len)
  {
    hide *;
    UndoRowsStep(t, rows, len, 4, up);
    KnownStep(t, rows, len);
    UndoNothing(t[1..1 + len], up, 4, len);
    assert t[1..1 + len][..len] == t[1..1 + len];
    assert t == [t[0]] + t[1..1 + len] + rest;
  }

  lemma AreaOfWide(w: nat, rows: nat)
    ensures Unread(w, 4, 0, rows) == Area(rows, 4 * w)
  {
    assert w * 4 == 4 * w;
    hide Area;
  }

  // ---------- the loops ----------

  lemma RowBegins(buf: seq<byte>, src: nat, dest: nat, end: nat, w: nat, bypp: nat, rows: nat,
                  trns: Transparent, got: seq<Pixel>, goal: seq<Pixel>)
    requires rows > 0 && ScanUnderWay(buf, src, dest, end, w, bypp, 0, rows, trns, got, goal)
    ensures ScanUnderWay(buf, src + 1, dest, end, w, bypp, w, rows - 1, trns, got, goal)
  {
    ScanRow(buf[src..end], w, bypp, rows, trns);
    UnreadStep(w, bypp, 0, rows);
    Subslice(buf, src, end, 1, end - src);
    PixelsLeftStep(0, rows, w);
    hide Unread, Scan, Flat, PixelsLeft;
  }

  lemma ScanFinished(buf: seq<byte>, src: nat, dest: nat, end: nat, w: nat, bypp: nat, trns: Transparent,
                     got: seq<Pixel>, goal: seq<Pixel>)
    requires ScanUnderWay(buf, src, dest, end, w, bypp, 0, 0, trns, got, goal)
    ensures got == goal && dest == 4 * |goal| <= |buf| && buf[..dest] == Flat(goal)
  {
    UnreadStep(w, bypp, 0, 0);
    hide Unread, Flat;
    assert buf[src..end] == [];
  }

  /** One row of pixels. */
  method ConvertRow(buf: array<byte>, start: nat, destStart: nat, w: nat, bypp: nat, trns: Transparent,
                    ghost end: nat, ghost rows: nat, ghost before: seq<Pixel>, ghost goal: seq<Pixel>)
    returns (src: nat, dest: nat, ghost got: seq<Pixel>)
    requires ScanUnderWay(buf[..], start, destStart, end, w, bypp, w, rows, trns, before, goal)
    modifies buf
    ensures ScanUnderWay(buf[..], src, dest, end, w, bypp, 0, rows, trns, got, goal)
  {
    hide *;
    src, dest, got := start, destStart, before;
    for x := 0 to w
      invariant ScanUnderWay(buf[..], src, dest, end, w, bypp, w - x, rows, trns, got, goal)
    {
      ghost var p := ConvertPixel(buf, src, dest, bypp, trns, end, w, w - x, rows, got, goal);
      got := got + [p];
      src, dest := src + bypp, dest + 4;
    }
  }

  /** convert: `buf[off..end]` holds rows behind their filter bytes; the pixels end up at the front. */
  method ConvertRows(buf: array<byte>, off: nat, w: nat, h: nat, bypp: nat, trns: Transparent,
                     ghost end: nat, ghost goal: seq<Pixel>)
    requires ScanUnderWay(buf[..], off, 0, end, w, bypp, 0, h, trns, [], goal)
    modifies buf
    ensures 4 * |goal| <= buf.Length && buf[..4 * |goal|] == Flat(goal)
  {
    hide *;
    var src, dest: nat := off, 0;
    ghost var got: seq<Pixel> := [];
    for y := 0 to h
      invariant ScanUnderWay(buf[..], src, dest, end, w, bypp, 0, h - y, trns, got, goal)
    {
      RowBegins(buf[..], src, dest, end, w, bypp, h - y, trns, got, goal);
      src := src + 1;
      src, dest, got := ConvertRow(buf, src, dest, w, bypp, trns, end, h - y - 1, got, goal);
    }
    ScanFinished(buf[..], src, dest, end, w, bypp, trns, got, goal);
    assert buf[..][..dest] == buf[..dest];
  }
}
