/** The five row filters of section 6 of RFC 2083, undone in place by tigr and row by row by the
    map generator. */
module Filters {
  import opened Bits
  import opened Wrappers

  function Abs(x: int): nat { if x < 0 then -x else x }

  /** The Paeth predictor as tigr writes it. */
  function Paeth(a: byte, b: byte, c: byte): (r: byte) {
    var p := a + b - c;
    var pa, pb, pc := Abs(p - a), Abs(p - b), Abs(p - c);
    if pa <= pb && pa <= pc then a else if pb <= pc then b else c
  }

  /** The predictor of section 6.6 of RFC 2083: the nearest of the three, ties in the order left,
      above, upper left. */
  lemma PaethIsNearest(a: byte, b: byte, c: byte)
    ensures var r, p := Paeth(a, b, c), a + b - c;
            && Abs(p - r) <= Abs(p - a) && Abs(p - r) <= Abs(p - b) && Abs(p - r) <= Abs(p - c)
            && (Abs(p - a) == Abs(p - r) ==> r == a)
            && (Abs(p - b) == Abs(p - r) && r != a ==> r == b)
            && (r == a || r == b || r == c)
  {}

  /** What a filter predicts from the bytes to the left, above, and to the upper left. */
  function Predict(kind: byte, left: byte, up: byte, upLeft: byte): byte {
    if kind == 1 then left
    else if kind == 2 then up
    else if kind == 3 then (left + up) / 2
    else if kind == 4 then Paeth(left, up, upLeft)
    else 0
  }

  /** The first `n` bytes of a row with its filter undone; bytes outside the image count as zero. */
  function Undo(kind: byte, s: seq<byte>, up: seq<byte>, bpp: nat, n: nat): (r: seq<byte>)
    requires n <= |s| <= |up| && bpp > 0
    ensures |r| == n
  {
    if n == 0 then []
    else
      var before := Undo(kind, s, up, bpp, n - 1);
      var x := n - 1;
      before + [(s[x] + (if x >= bpp then Predict(kind, before[x - bpp], up[x], up[x - bpp])
                         else Predict(kind, 0, up[x], 0))) % 256]
  }

  /** The macro LOOP's first argument: nothing lies to the left. */
  function AtStart(kind: byte, up: byte): byte {
    if kind == 1 then 0 else if kind == 2 then up else if kind == 3 then up / 2 else up
  }

  lemma AtStartPredicts(kind: byte, up: byte)
    requires 1 <= kind <= 4
    ensures AtStart(kind, up) == Predict(kind, 0, up, 0)
  {}

  // ---------- a row in place ----------

  /** `raw[at..]` up to `x` is done and the rest of the buffer is as it was. */
  ghost predicate RowUnderWay(raw: array<byte>, was: seq<byte>, at: nat, len: nat, x: nat, kind: byte, up: seq<byte>,
                              bpp: nat)
    requires bpp > 0
    reads raw
  {
    && x <= len == |up| && at + len <= raw.Length == |was|
    && raw[..at] == was[..at] && raw[at + x..] == was[at + x..]
    && raw[at..at + x] == Undo(kind, was[at..at + len], up, bpp, x)
  }

  /** One byte of the row. */
  method AddByte(raw: array<byte>, at: nat, x: nat, add: byte, ghost was: seq<byte>, ghost len: nat, ghost kind: byte,
                 ghost up: seq<byte>, ghost bpp: nat)
    requires bpp > 0 && RowUnderWay(raw, was, at, len, x, kind, up, bpp) && x < len
    requires add == if x >= bpp then Predict(kind, raw[at + x - bpp], up[x], up[x - bpp])
               else Predict(kind, 0, up[x], 0)
    modifies raw
    ensures RowUnderWay(raw, was, at, len, x + 1, kind, up, bpp)
  {
    hide Predict;
    ghost var before := raw[at..at + x];
    assert x >= bpp ==> raw[at + x - bpp] == before[x - bpp];
    assert raw[at + x] == raw[at + x..][0] == was[at + x..][0] == was[at..at + len][x];
    ghost var s := was[at..at + len];
    assert Undo(kind, s, up, bpp, x + 1) == before + [(s[x] + add) % 256];
    raw[at + x] := (raw[at + x] + add) % 256;
    hide Undo;
    assert raw[at..at + x + 1] == before + [(s[x] + add) % 256];
    assert raw[at + x + 1..] == was[at + x..][1..];
  }

  lemma RowStarts(raw: array<byte>, at: nat, len: nat, kind: byte, up: seq<byte>, bpp: nat)
    requires bpp > 0 && at + len <= raw.Length && |up| == len
    ensures RowUnderWay(raw, raw[..], at, len, 0, kind, up, bpp)
  {}

  lemma {:induction false} UndoNothing(s: seq<byte>, up: seq<byte>, bpp: nat, n: nat)
    requires n <= |s| <= |up| && bpp > 0
    ensures Undo(0, s, up, bpp, n) == s[..n]
  {
    if n != 0 { UndoNothing(s, up, bpp, n - 1); }
  }

  /** The row above lies earlier in the same buffer, or in the buffer of zeros. */
  ghost predicate RowAbove(raw: array<byte>, was: seq<byte>, at: nat, len: nat, prev: array<byte>, p: nat,
                           up: seq<byte>)
    reads prev
  {
    && p + len <= prev.Length && |was| == raw.Length
    && if prev == raw then p + len <= at && up == was[p..p + len] else up == prev[p..p + len]
  }

  /** One turn of either loop of the macro. */
  method AddPrediction(raw: array<byte>, at: nat, x: nat, bpp: nat, prev: array<byte>, p: nat, kind: byte,
                       ghost was: seq<byte>, ghost len: nat, ghost up: seq<byte>)
    requires bpp > 0 && 1 <= kind <= 4 && x < len
    requires RowUnderWay(raw, was, at, len, x, kind, up, bpp) && RowAbove(raw, was, at, len, prev, p, up)
    modifies raw
    ensures RowUnderWay(raw, was, at, len, x + 1, kind, up, bpp) && RowAbove(raw, was, at, len, prev, p, up)
  {
    UpKept(raw, was, at, len, x, kind, up, bpp, prev, p, x);
    if x < bpp {
      AtStartPredicts(kind, up[x]);
      hide AtStart, Predict, Undo;
      AddByte(raw, at, x, AtStart(kind, prev[p + x]), was, len, kind, up, bpp);
    } else {
      UpKept(raw, was, at, len, x, kind, up, bpp, prev, p, x - bpp);
      hide Predict, Undo;
      AddByte(raw, at, x, Predict(kind, raw[at + x - bpp], prev[p + x], prev[p + x - bpp]), was, len, kind, up, bpp);
    }
  }

  /** One past the last byte the macro touches: its first loop runs over the bytes of a pixel even
      when the row is shorter. */
  function Reach(at: nat, len: nat, bpp: nat): nat { at + if len < bpp then bpp else len }

  /** The macro LOOP: the first `bpp` bytes have nothing to their left. */
  method LoopOverRow(raw: array<byte>, at: nat, len: nat, bpp: nat, prev: array<byte>, p: nat, kind: byte,
                     ghost was: seq<byte>, ghost up: seq<byte>) returns (ghost reach: nat)
    requires 0 < bpp <= len && 1 <= kind <= 4
    requires RowUnderWay(raw, was, at, len, 0, kind, up, bpp) && RowAbove(raw, was, at, len, prev, p, up)
    modifies raw
    ensures RowUnderWay(raw, was, at, len, len, kind, up, bpp) && reach == Reach(at, len, bpp)
  {
    NoFarther(at, len, bpp);
    hide *;
    var x: nat := 0;
    reach := at;
    while x < bpp
      invariant reach == at + x
      invariant x <= bpp && RowUnderWay(raw, was, at, len, x, kind, up, bpp) && RowAbove(raw, was, at, len, prev, p, up)
    {
      AddPrediction(raw, at, x, bpp, prev, p, kind, was, len, up);
      reach := at + x + 1;
      x := x + 1;
    }
    while x < len
      invariant reach == at + x
      invariant bpp <= x <= len && RowUnderWay(raw, was, at, len, x, kind, up, bpp) &&
                RowAbove(raw, was, at, len, prev, p, up)
    {
      AddPrediction(raw, at, x, bpp, prev, p, kind, was, len, up);
      reach := at + x + 1;
      x := x + 1;
    }
  }

  lemma NoFarther(at: nat, len: nat, bpp: nat)
    requires bpp <= len
    ensures Reach(at, len, bpp) == at + len
  {}

  /** The row above is not touched. */
  lemma UpKept(raw: array<byte>, was: seq<byte>, at: nat, len: nat, x: nat, kind: byte, up: seq<byte>, bpp: nat,
               prev: array<byte>, p: nat, k: nat)
    requires bpp > 0
    requires RowUnderWay(raw, was, at, len, x, kind, up, bpp) && k < len && RowAbove(raw, was, at, len, prev, p, up)
    ensures p + k < prev.Length && prev[p + k] == up[k]
  {
    hide Undo;
    if prev == raw {
      assert raw[p + k] == raw[..at][p + k] == was[..at][p + k];
    }
  }

  /** One row: the switch over the filter byte. */
  method UnfilterRow(raw: array<byte>, at: nat, len: nat, bpp: nat, prev: array<byte>, p: nat, kind: byte,
                     ghost up: seq<byte>)
    returns (ghost reach: nat)
    requires 0 < bpp && kind <= 4 && at + len <= raw.Length && |up| == len
    requires bpp <= len
    requires RowAbove(raw, raw[..], at, len, prev, p, up)
    modifies raw
    ensures RowUnderWay(raw, old(raw[..]), at, len, len, kind, up, bpp)
    ensures reach == if kind == 0 then at else Reach(at, len, bpp)
  {
    reach := at;
    ghost var was := raw[..];
    RowStarts(raw, at, len, kind, up, bpp);
    if kind == 0 {
      UndoNothing(was[at..at + len], up, bpp, len);
    } else {
      hide *;
      reach := LoopOverRow(raw, at, len, bpp, prev, p, kind, was, up);
    }
  }

  // ---------- a whole image ----------

  function RowSize(w: nat, bipp: nat): (len: nat)
    ensures bipp > 0 && w > 0 ==> 0 < RowSize(1, bipp) <= len
    ensures w == 0 ==> len == 0
  {
    assert w > 0 ==> w * bipp >= 1 * bipp by { if w > 0 { Wider(1, w, bipp); } }
    w * bipp / 8 + if w * bipp % 8 != 0 then 1 else 0
  }

  lemma Wider(a: nat, b: nat, k: nat)
    requires a <= b
    ensures a * k <= b * k
  {}

  function Zeros(n: nat): (s: seq<byte>)
    ensures |s| == n
  {
    seq(n, _ => 0)
  }

  /** The size of `h` rows of `len` bytes behind their filter bytes. */
  function Area(h: nat, len: nat): (n: nat)
  {
    h * (1 + len)
  }

  lemma FirstOfRows(h: nat, len: nat)
    ensures Area(0, len) == 0
    ensures h > 0 ==> Area(h, len) == (1 + len) + Area(h - 1, len)
  {}

  /** Rows behind their filter bytes, with the filters undone; `up` is the row above the first. */
  function UndoRows(data: seq<byte>, h: nat, len: nat, bpp: nat, up: seq<byte>): (r: seq<byte>)
    requires |data| == Area(h, len) && |up| == len && bpp > 0
    ensures |r| == |data|
    decreases h
  {
    if h == 0 then []
    else
      FirstOfRows(h, len);
      var row := Undo(data[0], data[1..1 + len], up, bpp, len);
      [data[0]] + row + UndoRows(data[1 + len..], h - 1, len, bpp, row)
  }

  predicate KnownFilters(data: seq<byte>, h: nat, len: nat)
    requires |data| == Area(h, len)
    decreases h
  {
    h == 0 || (FirstOfRows(h, len); data[0] <= 4 && KnownFilters(data[1 + len..], h - 1, len))
  }

  /** `raw[at..pos]` is done, `h` rows below `up` are left up to `end`, and the whole leads to `goal`. */
  ghost predicate RowsUnderWay(raw: seq<byte>, was: seq<byte>, at: nat, pos: nat, end: nat, h: nat, len: nat, bpp: nat,
                               up: seq<byte>, goal: seq<byte>)
    requires bpp > 0
  {
    && at <= pos <= end <= |raw| == |was| && |up| == len
    && end - pos == Area(h, len)
    && raw[..at] == was[..at] && raw[end..] == was[end..]
    && raw[at..pos] + UndoRows(raw[pos..end], h, len, bpp, up) == goal
  }

  /** The row between `pos` and `next` is replaced by what its filter makes of it. */
  ghost predicate RowReplaced(now: seq<byte>, before: seq<byte>, pos: nat, len: nat, bpp: nat, up: seq<byte>)
    requires bpp > 0
  {
    && pos + 1 + len <= |now| == |before| && |up| == len
    && now[..pos + 1] == before[..pos + 1] && now[pos + 1 + len..] == before[pos + 1 + len..]
    && now[pos + 1..pos + 1 + len] == Undo(before[pos], before[pos + 1..pos + 1 + len], up, bpp, len)
  }

  lemma RowDone(now: seq<byte>, before: seq<byte>, was: seq<byte>, at: nat, pos: nat, end: nat, h: nat, len: nat,
                bpp: nat, up: seq<byte>, goal: seq<byte>)
    requires bpp > 0 && h > 0 && RowsUnderWay(before, was, at, pos, end, h, len, bpp, up, goal)
    requires RowReplaced(now, before, pos, len, bpp, up)
    ensures pos + 1 + len <= end && now[pos + 1 + len..end] == before[pos + 1 + len..end]
    ensures RowsUnderWay(now, was, at, pos + 1 + len, end, h - 1, len, bpp, now[pos + 1..pos + 1 + len], goal)
  {
    FirstOfRows(h, len);
    var data, row, rest := before[pos..end], now[pos + 1..pos + 1 + len], before[pos + 1 + len..end];
    RowOfSlice(before, pos, end, len);
    hide Undo, UndoRows, Area;
    UndoRowsStep(data, h, len, bpp, up);
    Tail(now, before, pos + 1 + len, end);
    Head(now, before, at, pos + 1);
    RowJoined(before[at..pos], before[pos], row, UndoRows(rest, h - 1, len, bpp, row), before, at, pos, now,
              pos + 1 + len);
  }

  lemma Subslice(s: seq<byte>, a: nat, b: nat, i: nat, j: nat)
    requires a <= b <= |s| && i <= j <= b - a
    ensures s[a..b][i..j] == s[a + i..a + j]
  {
    forall k | 0 <= k < j - i
      ensures s[a..b][i..j][k] == s[a + i..a + j][k]
    {
      assert s[a..b][i + k] == s[a + i + k];
    }
  }

  lemma RowOfSlice(before: seq<byte>, pos: nat, end: nat, len: nat)
    requires pos + 1 + len <= end <= |before|
    ensures var data := before[pos..end];
            data[0] == before[pos] && data[1..1 + len] == before[pos + 1..pos + 1 + len] &&
                data[1 + len..] == before[pos + 1 + len..end]
  {
    var data := before[pos..end];
    Subslice(before, pos, end, 1, 1 + len);
    Subslice(before, pos, end, 1 + len, |data|);
  }

  lemma RowJoined(a: seq<byte>, d: byte, row: seq<byte>, u: seq<byte>, before: seq<byte>, at: nat, pos: nat,
                  now: seq<byte>, next: nat)
    requires at <= pos < next <= |now| == |before| && a == before[at..pos] && d == before[pos]
    requires now[at..pos + 1] == before[at..pos + 1] && now[pos + 1..next] == row
    ensures now[at..next] + u == a + ([d] + row + u)
  {
    assert before[at..pos + 1] == a + [d];
    assert now[at..next] == now[at..pos + 1] + row;
  }

  lemma UndoRowsStep(data: seq<byte>, h: nat, len: nat, bpp: nat, up: seq<byte>)
    requires |data| == Area(h, len) && |up| == len && bpp > 0 && h > 0
    ensures |data| >= 1 + len && |data[1 + len..]| == Area(h - 1, len)
    ensures var row := Undo(data[0], data[1..1 + len], up, bpp, len);
            UndoRows(data, h, len, bpp, up) == [data[0]] + row + UndoRows(data[1 + len..], h - 1, len, bpp, row)
  {
    FirstOfRows(h, len);
    hide Undo, Area;
  }

  lemma Tail(a: seq<byte>, b: seq<byte>, from: nat, end: nat)
    requires from <= end <= |a| == |b| && a[from..] == b[from..]
    ensures a[from..end] == b[from..end] && a[end..] == b[end..]
  {
    assert a[from..end] == a[from..][..end - from] && b[from..end] == b[from..][..end - from];
    assert a[end..] == a[from..][end - from..] && b[end..] == b[from..][end - from..];
  }

  lemma Head(a: seq<byte>, b: seq<byte>, at: nat, end: nat)
    requires at <= end <= |a| == |b| && a[..end] == b[..end]
    ensures a[at..end] == b[at..end] && a[..at] == b[..at]
  {
    assert a[at..end] == a[..end][at..] && b[at..end] == b[..end][at..];
    assert a[..at] == a[..end][..at] && b[..at] == b[..end][..at];
  }

  /** Where the bytes of row `y` start. */
  function RowAt(at: nat, len: nat, y: nat): nat { at + Area(y, len) + 1 }

  /** Between two rows: the row above is `prev[p..]`. */
  ghost predicate BetweenRows(raw: array<byte>, was: seq<byte>, at: nat, pos: nat, end: nat, h: nat, len: nat, bpp: nat,
                              prev: array<byte>, p: nat, up: seq<byte>, goal: seq<byte>)
    reads raw, prev
  {
    && bpp > 0 && RowsUnderWay(raw[..], was, at, pos, end, h, len, bpp, up, goal)
    && RowAbove(raw, raw[..], pos + 1, len, prev, p, up)
    && bpp <= len
  }

  /** One row behind its filter byte, unless that is unknown. */
  method NextRow(raw: array<byte>, pos: nat, len: nat, bpp: nat, prev: array<byte>, p: nat, ghost h: nat,
                 ghost was: seq<byte>, ghost at: nat, ghost end: nat, ghost up: seq<byte>, ghost goal: seq<byte>)
    returns (ok: bool)
    requires h > 0 && BetweenRows(raw, was, at, pos, end, h, len, bpp, prev, p, up, goal)
    modifies raw
    ensures pos + 1 + len <= end <= raw.Length && end - pos == Area(h, len)
    ensures end - (pos + 1 + len) == Area(h - 1, len)
    ensures ok ==> BetweenRows(raw, was, at, pos + 1 + len, end, h - 1, len, bpp, raw, pos + 1,
                               raw[pos + 1..pos + 1 + len], goal)
    ensures KnownFilters(old(raw[pos..end]), h, len) <==> ok && KnownFilters(raw[pos + 1 + len..end], h - 1, len)
    ensures |was| == raw.Length && at <= end && raw[..at] == was[..at] && raw[end..] == was[end..]
  {
    ghost var before := raw[..];
    KnownNext(before, pos, end, h, len);
    hide UndoRows, Undo, KnownFilters, Area, RowsUnderWay;
    if raw[pos] > 4 {
      return false;
    }
    ghost var _ := UnfilterRow(raw, pos + 1, len, bpp, prev, p, raw[pos], up);
    ReplacedInBuffer(raw, before, pos, len, bpp, up);
    hide *;
    RowDone(raw[..], before, was, at, pos, end, h, len, bpp, up, goal);
    BetweenNext(raw, before, was, at, pos, end, h, len, bpp, up, goal);
    ok := true;
  }

  lemma KnownNext(before: seq<byte>, pos: nat, end: nat, h: nat, len: nat)
    requires pos <= end <= |before| && end - pos == Area(h, len) && h > 0
    ensures pos + 1 + len <= end && end - (pos + 1 + len) == Area(h - 1, len)
    ensures KnownFilters(before[pos..end], h, len) <==>
              before[pos] <= 4 && KnownFilters(before[pos + 1 + len..end], h - 1, len)
  {
    FirstOfRows(h, len);
    KnownStep(before[pos..end], h, len);
    RowOfSlice(before, pos, end, len);
    hide KnownFilters, Area;
  }

  lemma ReplacedInBuffer(raw: array<byte>, before: seq<byte>, pos: nat, len: nat, bpp: nat, up: seq<byte>)
    requires bpp > 0 && pos < |before| && RowUnderWay(raw, before, pos + 1, len, len, before[pos], up, bpp)
    ensures RowReplaced(raw[..], before, pos, len, bpp, up)
  {
    hide Undo;
  }

  lemma BetweenNext(raw: array<byte>, before: seq<byte>, was: seq<byte>, at: nat, pos: nat, end: nat, h: nat, len: nat,
                    bpp: nat, up: seq<byte>, goal: seq<byte>)
    requires bpp > 0 && h > 0 && pos + 1 + len <= raw.Length
    requires RowsUnderWay(raw[..], was, at, pos + 1 + len, end, h - 1, len, bpp, raw[pos + 1..pos + 1 + len], goal)
    requires RowReplaced(raw[..], before, pos, len, bpp, up)
    requires bpp <= len
    ensures BetweenRows(raw, was, at, pos + 1 + len, end, h - 1, len, bpp, raw, pos + 1, raw[pos + 1..pos + 1 + len],
                        goal)
  {
    hide UndoRows, Undo, Area;
  }

  /** The loop over the rows. */
  method UnfilterRows(h: nat, len: nat, bpp: nat, raw: array<byte>, at: nat, first: array<byte>,
                      ghost end: nat, ghost was: seq<byte>, ghost goal: seq<byte>) returns (ok: bool)
    requires first != raw && BetweenRows(raw, was, at, at, end, h, len, bpp, first, 0, Zeros(len), goal)
    requires at <= end <= raw.Length == |was| && end - at == Area(h, len)
    requires raw[..at] == was[..at] && raw[end..] == was[end..]
    modifies raw
    ensures ok <==> KnownFilters(old(raw[at..end]), h, len)
    ensures ok ==> raw[at..end] == goal
    ensures raw[..at] == was[..at] && raw[end..] == was[end..]
  {
    hide *;
    var pos: nat, y: nat, prev, p: nat := at, 0, first, 0;
    ghost var up := Zeros(len);
    ghost var known := KnownFilters(raw[at..end], h, len);
    while y < h
      invariant y <= h && BetweenRows(raw, was, at, pos, end, h - y, len, bpp, prev, p, up, goal)
      invariant pos <= end && end - pos == Area(h - y, len)
      invariant known <==> KnownFilters(raw[pos..end], h - y, len)
      invariant raw[..at] == was[..at] && raw[end..] == was[end..]
    {
      ok := NextRow(raw, pos, len, bpp, prev, p, h - y, was, at, end, up, goal);
      if !ok {
        return;
      }
      up := raw[pos + 1..pos + 1 + len];
      prev, p, pos, y := raw, pos + 1, pos + 1 + len, y + 1;
    }
    RowsFinished(raw, was, at, pos, end, len, bpp, prev, p, up, goal);
    ok := true;
  }

  lemma RowsFinished(raw: array<byte>, was: seq<byte>, at: nat, pos: nat, end: nat, len: nat, bpp: nat,
                     prev: array<byte>, p: nat, up: seq<byte>, goal: seq<byte>)
    requires BetweenRows(raw, was, at, pos, end, 0, len, bpp, prev, p, up, goal)
    ensures pos == end && at <= end <= raw.Length && raw[at..end] == goal && KnownFilters(raw[pos..end], 0, len)
  {
    FirstOfRows(0, len);
    NothingLeft(raw[pos..end], len, bpp, up);
    hide UndoRows, Undo, Area;
  }

  lemma KnownStep(data: seq<byte>, h: nat, len: nat)
    requires |data| == Area(h, len) && h > 0
    ensures |data| >= 1 + len && |data[1 + len..]| == Area(h - 1, len)
    ensures KnownFilters(data, h, len) <==> data[0] <= 4 && KnownFilters(data[1 + len..], h - 1, len)
  {
    FirstOfRows(h, len);
  }

  lemma NothingLeft(data: seq<byte>, len: nat, bpp: nat, up: seq<byte>)
    requires |data| == Area(0, len) && |up| == len && bpp > 0
    ensures Area(0, len) == 0 && data == [] && KnownFilters(data, 0, len) && UndoRows(data, 0, len, bpp, up) == []
  {}

  lemma FirstBetween(raw: array<byte>, at: nat, end: nat, h: nat, len: nat, bpp: nat, first: array<byte>)
    requires first != raw && first.Length == len + 1 && first[0..len] == Zeros(len) && bpp > 0
    requires at <= end <= raw.Length && end - at == Area(h, len)
    requires bpp <= len
    ensures BetweenRows(raw, raw[..], at, at, end, h, len, bpp, first, 0, Zeros(len),
                        UndoRows(raw[at..end], h, len, bpp, Zeros(len)))
  {
    hide UndoRows, Area;
    var goal := UndoRows(raw[at..end], h, len, bpp, Zeros(len));
    assert [] + goal == goal;
  }

  // ---------- an image of width zero ----------

  /** The macro's first loop after `x` turns in the empty row whose filter byte is `s[pos]`: the
      rows that follow are filter bytes, and each gets the one before it added. */
  function Spread(s: seq<byte>, pos: nat, x: nat): (t: seq<byte>)
    requires pos + x < |s|
    ensures |t| == |s| && t[pos] == s[pos]
  {
    if x == 0 then s
    else
      var before := Spread(s, pos, x - 1);
      before[pos + x := (before[pos + x] + AtStart(s[pos], before[pos + x - 1])) % 256]
  }

  /** The loop stays inside both buffers: what lies above the first row is one byte long. */
  predicate EmptyRowFits(s: seq<byte>, pos: nat, isFirst: bool, bpp: nat) {
    pos < |s| && (1 <= s[pos] <= 4 ==> pos + bpp < |s| && (isFirst && s[pos] > 1 ==> bpp == 1))
  }

  /** Above the first row are zeros, which change nothing. */
  function EmptyRowDone(s: seq<byte>, pos: nat, isFirst: bool, bpp: nat): (t: seq<byte>)
    requires EmptyRowFits(s, pos, isFirst, bpp) && s[pos] <= 4
    ensures |t| == |s|
  {
    if isFirst || s[pos] == 0 then s else Spread(s, pos, bpp)
  }

  predicate EmptyRowsFit(s: seq<byte>, pos: nat, isFirst: bool, h: nat, bpp: nat)
    decreases h
  {
    h == 0 ||
    (EmptyRowFits(s, pos, isFirst, bpp) &&
     (s[pos] <= 4 ==> EmptyRowsFit(EmptyRowDone(s, pos, isFirst, bpp), pos + 1, false, h - 1, bpp)))
  }

  /** The buffer after `h` empty rows, unless an unknown filter is met. */
  function EmptyRows(s: seq<byte>, pos: nat, isFirst: bool, h: nat, bpp: nat): (t: Option<seq<byte>>)
    requires EmptyRowsFit(s, pos, isFirst, h, bpp)
    ensures t.Some? ==> |t.value| == |s|
    decreases h
  {
    if h == 0 then Some(s)
    else if s[pos] > 4 then None
    else EmptyRows(EmptyRowDone(s, pos, isFirst, bpp), pos + 1, false, h - 1, bpp)
  }

  /** Plain bytes and the Sub filter leave everything as it is. */
  lemma {:induction false} PlainEmptyRows(s: seq<byte>, pos: nat, isFirst: bool, h: nat, bpp: nat)
    requires pos + h + bpp <= |s| && forall i :: pos <= i < pos + h ==> s[i] <= 1
    ensures EmptyRowsFit(s, pos, isFirst, h, bpp) && EmptyRows(s, pos, isFirst, h, bpp) == Some(s)
    decreases h
  {
    if h != 0 {
      if s[pos] == 1 {
        NothingSpread(s, pos, bpp);
      }
      PlainEmptyRows(s, pos + 1, false, h - 1, bpp);
    }
  }

  lemma {:induction false} NothingSpread(s: seq<byte>, pos: nat, x: nat)
    requires pos + x < |s| && s[pos] == 1
    ensures Spread(s, pos, x) == s
  {
    if x != 0 { NothingSpread(s, pos, x - 1); }
  }

  /** So an image can be refused for a filter that none of its rows has. */
  lemma RefusedForNoRow()
    ensures var s := [0, 2, 3, 0, 0, 0, 0, 0, 0, 0, 0, 0];
            KnownFilters(s[..3], 3, 0) && EmptyRowsFit(s, 0, true, 3, 1) && EmptyRows(s, 0, true, 3, 1) == None
  {
    var s := [0, 2, 3, 0, 0, 0, 0, 0, 0, 0, 0, 0];
    var t := s[2 := 5];
    assert Spread(s, 1, 0) == s && Spread(s, 1, 1) == t;
    assert EmptyRowDone(s, 0, true, 1) == s && EmptyRowDone(s, 1, false, 1) == t;
    assert EmptyRowsFit(t, 2, false, 1, 1) && EmptyRows(t, 2, false, 1, 1) == None;
    assert EmptyRowsFit(s, 1, false, 2, 1) && EmptyRows(s, 1, false, 2, 1) == None;
    FirstOfRows(3, 0);
    FirstOfRows(2, 0);
    FirstOfRows(1, 0);
    assert s[..3][1..] == [2, 3] && [2, 3][1..] == [3] && [3][1..] == [];
    assert KnownFilters([], 0, 0) && KnownFilters([3], 1, 0) && KnownFilters([2, 3], 2, 0);
  }

  /** One such row; the row above is `prev[p..]`, the filter byte itself but for the first row. */
  method EmptyRow(raw: array<byte>, pos: nat, bpp: nat, prev: array<byte>, p: nat) returns (ghost reach: nat)
    requires EmptyRowFits(raw[..], pos, prev != raw, bpp) && raw[pos] <= 4
    requires if prev == raw then p == pos else p == 0 && prev.Length == 1 && prev[0] == 0
    modifies raw
    ensures raw[..] == EmptyRowDone(old(raw[..]), pos, prev != raw, bpp)
    ensures reach == if old(raw[pos]) == 0 then pos + 1 else Reach(pos + 1, 0, bpp)
  {
    reach := pos + 1;
    ghost var was := raw[..];
    var kind := raw[pos];
    if kind == 0 {
      return;
    }
    var x: nat := 0;
    while x < bpp
      invariant x <= bpp && reach == pos + 1 + x && pos + x < raw.Length == |was| && raw[pos] == kind
      invariant prev == raw ==> raw[..] == Spread(was, pos, x)
      invariant prev != raw ==> raw[..] == was && prev[0] == 0
    {
      var add := if kind == 1 then 0 else AtStart(kind, prev[p + x]);
      raw[pos + 1 + x] := (raw[pos + 1 + x] + add) % 256;
      reach := pos + 1 + x + 1;
      x := x + 1;
    }
  }

  /** The loop over such rows. */
  method UnfilterEmptyRows(h: nat, bpp: nat, raw: array<byte>, at: nat, first: array<byte>) returns (ok: bool)
    requires first != raw && first.Length == 1 && first[0] == 0 && EmptyRowsFit(raw[..], at, true, h, bpp)
    modifies raw
    ensures EmptyRows(old(raw[..]), at, true, h, bpp) == if ok then Some(raw[..]) else None
  {
    ghost var goal := EmptyRows(raw[..], at, true, h, bpp);
    var y: nat, prev, p: nat := 0, first, 0;
    while y < h
      invariant y <= h && EmptyRowsFit(raw[..], at + y, y == 0, h - y, bpp)
      invariant goal == EmptyRows(raw[..], at + y, y == 0, h - y, bpp)
      invariant if y == 0 then prev == first && p == 0 && first[0] == 0 else prev == raw && p == at + y
    {
      if raw[at + y] > 4 {
        return false;
      }
      ghost var _ := EmptyRow(raw, at + y, bpp, prev, p);
      y, prev, p := y + 1, raw, at + y + 1;
    }
    ok := true;
  }

  /** unfilter: in place, the rows become the rows with their filters undone, or an unknown filter
      is met. */
  method Unfilter(w: nat, h: nat, bipp: nat, raw: array<byte>, at: nat) returns (ok: bool)
    requires bipp > 0 && at + Area(h, RowSize(w, bipp)) <= raw.Length
    requires w == 0 ==> EmptyRowsFit(raw[..], at, true, h, RowSize(1, bipp))
    modifies raw
    ensures w == 0 ==> EmptyRows(old(raw[..]), at, true, h, RowSize(1, bipp)) == if ok then Some(raw[..]) else None
    ensures w > 0 ==>
              var len, end := RowSize(w, bipp), at + Area(h, RowSize(w, bipp));
              var data := old(raw[at..end]);
              && (ok <==> KnownFilters(data, h, len))
              && (ok ==> raw[at..end] == UndoRows(data, h, len, RowSize(1, bipp), Zeros(len)))
              && raw[..at] == old(raw[..at]) && raw[end..] == old(raw[end..])
  {
    var len, bpp := RowSize(w, bipp), RowSize(1, bipp);
    var first := new byte[len + 1](_ => 0);
    if w == 0 {
      hide *;
      ok := UnfilterEmptyRows(h, bpp, raw, at, first);
      return;
    }
    assert first[0..len] == Zeros(len);
    ghost var end := at + Area(h, len);
    ghost var was, data := raw[..], raw[at..end];
    ghost var goal := UndoRows(data, h, len, bpp, Zeros(len));
    FirstBetween(raw, at, end, h, len, bpp, first);
    hide *;
    ok := UnfilterRows(h, len, bpp, raw, at, first, end, was, goal);
  }

  // ---------- the map generator's rows ----------

  /** The rows of an image with their filters undone. */
  function RowsOf(data: seq<byte>, h: nat, len: nat, bpp: nat, up: seq<byte>): (rows: seq<seq<byte>>)
    requires |data| == Area(h, len) && |up| == len && bpp > 0
    ensures |rows| == h && forall r :: 0 <= r < h ==> |rows[r]| == len
    decreases h
  {
    if h == 0 then []
    else
      FirstOfRows(h, len);
      var row := Undo(data[0], data[1..1 + len], up, bpp, len);
      [row] + RowsOf(data[1 + len..], h - 1, len, bpp, row)
  }

  /** Rows put back behind the filter bytes of `data`. */
  function Behind(data: seq<byte>, rows: seq<seq<byte>>, len: nat): seq<byte>
    requires |data| == Area(|rows|, len)
    decreases |rows|
  {
    if rows == [] then []
    else
      FirstOfRows(|rows|, len);
      [data[0]] + rows[0] + Behind(data[1 + len..], rows[1..], len)
  }

  /** tigr's buffer after `unfilter` is the map generator's rows behind the filter bytes. */
  lemma {:induction false} UnfiltersAgree(data: seq<byte>, h: nat, len: nat, bpp: nat, up: seq<byte>)
    requires |data| == Area(h, len) && |up| == len && bpp > 0
    ensures UndoRows(data, h, len, bpp, up) == Behind(data, RowsOf(data, h, len, bpp, up), len)
    decreases h
  {
    hide Undo;
    if h != 0 {
      FirstOfRows(h, len);
      var row := Undo(data[0], data[1..1 + len], up, bpp, len);
      UnfiltersAgree(data[1 + len..], h - 1, len, bpp, row);
      var rows := RowsOf(data, h, len, bpp, up);
      assert rows[1..] == RowsOf(data[1 + len..], h - 1, len, bpp, row);
    }
  }

  function Min(a: nat, b: nat): nat { if a <= b then a else b }

  /** The predictor as png_pixels writes it: the first index of the least distance. */
  function Nearest(left: byte, up: byte, upLeft: byte): byte {
    var guess := left + up - upLeft;
    var distances := [Abs(guess - left), Abs(guess - up), Abs(guess - upLeft)];
    var least := Min(distances[0], Min(distances[1], distances[2]));
    var index := if distances[0] == least then 0 else if distances[1] == least then 1 else 2;
    [left, up, upLeft][index]
  }

  lemma PredictorsAgree(left: byte, up: byte, upLeft: byte)
    ensures Nearest(left, up, upLeft) == Paeth(left, up, upLeft)
  {}

  /** One byte of a line; an unknown filter leaves it alone. */
  function Restored(kind: byte, b: byte, left: byte, up: byte, upLeft: byte): byte {
    if kind == 1 then (b + left) % 256
    else if kind == 2 then (b + up) % 256
    else if kind == 3 then (b + (left + up) / 2) % 256
    else if kind == 4 then (b + Nearest(left, up, upLeft)) % 256
    else b
  }

  lemma RestoredAdds(kind: byte, b: byte, left: byte, up: byte, upLeft: byte)
    ensures Restored(kind, b, left, up, upLeft) == (b + Predict(kind, left, up, upLeft)) % 256
  {
    PredictorsAgree(left, up, upLeft);
    hide Nearest, Paeth;
  }

  method RestoreLine(kind: byte, line: array<byte>, previous: seq<byte>, channels: nat)
    requires channels > 0 && |previous| == line.Length
    modifies line
    ensures line[..] == Undo(kind, old(line[..]), previous, channels, line.Length)
  {
    ghost var s := line[..];
    hide Undo;
    NothingUndone(kind, s, previous, channels);
    for i := 0 to line.Length
      invariant line[..i] == Undo(kind, s, previous, channels, i) && line[i..] == s[i..]
    {
      RestoreByte(kind, line, i, previous, channels, s);
    }
    assert line[..line.Length] == line[..];
  }

  lemma NothingUndone(kind: byte, s: seq<byte>, up: seq<byte>, bpp: nat)
    requires |s| <= |up| && bpp > 0
    ensures Undo(kind, s, up, bpp, 0) == []
  {}

  /** One turn of the loop over a line. */
  method RestoreByte(kind: byte, line: array<byte>, i: nat, previous: seq<byte>, channels: nat, ghost s: seq<byte>)
    requires channels > 0 && |previous| == line.Length == |s| && i < line.Length
    requires line[..i] == Undo(kind, s, previous, channels, i) && line[i..] == s[i..]
    modifies line
    ensures line[..i + 1] == Undo(kind, s, previous, channels, i + 1) && line[i + 1..] == s[i + 1..]
  {
    hide Predict, Restored, Undo;
    UndoStep(kind, s, previous, channels, i);
    var left := if i >= channels then line[i - channels] else 0;
    var up := previous[i];
    var upLeft := if i >= channels then previous[i - channels] else 0;
    RestoredAdds(kind, line[i], left, up, upLeft);
    ghost var before := line[..i];
    assert i >= channels ==> left == before[i - channels];
    assert line[i] == line[i..][0] == s[i..][0] && s[i + 1..] == s[i..][1..];
    line[i] := Restored(kind, line[i], left, up, upLeft);
    assert line[..i + 1] == before + [line[i]];
  }

  lemma UndoStep(kind: byte, s: seq<byte>, up: seq<byte>, bpp: nat, x: nat)
    requires x < |s| <= |up| && bpp > 0
    ensures Undo(kind, s, up, bpp, x + 1)
         == Undo(kind, s, up, bpp, x)
            + [(s[x] + (if x >= bpp then Predict(kind, Undo(kind, s, up, bpp, x)[x - bpp], up[x], up[x - bpp])
                        else Predict(kind, 0, up[x], 0))) % 256]
  {}

  /** `rows` are restored, `h` more are to come from `raw[at..total]`, and together they are `goal`. */
  ghost predicate RestoreUnderWay(raw: seq<byte>, at: nat, total: nat, h: nat, stride: nat, channels: nat,
                                  previous: seq<byte>, rows: seq<seq<byte>>, goal: seq<seq<byte>>) {
    && channels > 0 && |previous| == stride && at <= total <= |raw| && total - at == Area(h, stride)
    && rows + RowsOf(raw[at..total], h, stride, channels, previous) == goal
  }

  /** One row of png_pixels. */
  method RestoreRow(raw: seq<byte>, at: nat, stride: nat, channels: nat, previous: seq<byte>,
                    ghost total: nat, ghost h: nat, ghost rows: seq<seq<byte>>, ghost goal: seq<seq<byte>>)
    returns (row: seq<byte>)
    requires h > 0 && RestoreUnderWay(raw, at, total, h, stride, channels, previous, rows, goal)
    ensures RestoreUnderWay(raw, at + (stride + 1), total, h - 1, stride, channels, row, rows + [row], goal)
  {
    FirstOfRows(h, stride);
    ghost var rest := raw[at..total];
    var line := new byte[stride](i requires 0 <= i < stride && at + 1 + i < |raw| => raw[at + 1 + i]);
    assert line[..] == rest[1..1 + stride] && raw[at + (stride + 1)..total] == rest[1 + stride..];
    RowsStep(rest, h, stride, channels, previous);
    hide RowsOf, Undo;
    RestoreLine(raw[at], line, previous, channels);
    row := line[..];
  }

  function LineStart(r: nat, stride: nat): nat { r * (stride + 1) }

  lemma LineStarts(r: nat, stride: nat)
    ensures LineStart(0, stride) == 0 && LineStart(r + 1, stride) == LineStart(r, stride) + (stride + 1)
  {}

  /** The loop over the rows in png_pixels. */
  method PngRows(raw: seq<byte>, height: nat, stride: nat, channels: nat) returns (rows: seq<seq<byte>>)
    requires channels > 0 && |raw| >= Area(height, stride)
    ensures rows == RowsOf(raw[..Area(height, stride)], height, stride, channels, Zeros(stride))
  {
    ghost var total := Area(height, stride);
    ghost var goal := RowsOf(raw[..total], height, stride, channels, Zeros(stride));
    rows := [];
    var previous := Zeros(stride);
    RestoreStarts(raw, total, height, stride, channels);
    hide *;
    for r := 0 to height
      invariant RestoreUnderWay(raw, LineStart(r, stride), total, height - r, stride, channels, previous, rows, goal)
    {
      LineStarts(r, stride);
      previous := RestoreRow(raw, LineStart(r, stride), stride, channels, previous, total, height - r, rows, goal);
      rows := rows + [previous];
    }
    AllRestored(raw, LineStart(height, stride), total, stride, channels, previous, rows, goal);
  }

  lemma RestoreStarts(raw: seq<byte>, total: nat, h: nat, stride: nat, channels: nat)
    requires channels > 0 && total == Area(h, stride) <= |raw|
    ensures RestoreUnderWay(raw, LineStart(0, stride), total, h, stride, channels, Zeros(stride), [],
                            RowsOf(raw[..total], h, stride, channels, Zeros(stride)))
  {
    LineStarts(0, stride);
    hide LineStart, RowsOf;
    var goal := RowsOf(raw[..total], h, stride, channels, Zeros(stride));
    assert raw[0..total] == raw[..total] && [] + goal == goal;
  }

  lemma AllRestored(raw: seq<byte>, at: nat, total: nat, stride: nat, channels: nat, previous: seq<byte>,
                    rows: seq<seq<byte>>, goal: seq<seq<byte>>)
    requires RestoreUnderWay(raw, at, total, 0, stride, channels, previous, rows, goal)
    ensures rows == goal
  {}

  lemma RowsStep(data: seq<byte>, h: nat, len: nat, bpp: nat, up: seq<byte>)
    requires |data| == Area(h, len) && |up| == len && bpp > 0 && h > 0
    ensures |data| >= 1 + len && |data[1 + len..]| == Area(h - 1, len)
    ensures var row := Undo(data[0], data[1..1 + len], up, bpp, len);
            RowsOf(data, h, len, bpp, up) == [row] + RowsOf(data[1 + len..], h - 1, len, bpp, row)
  {
    FirstOfRows(h, len);
    hide Undo;
  }
}
