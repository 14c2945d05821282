/** Bitmaps, and the rows of bytes a PNG file makes of them. */
module Bitmaps {
  import opened Bits

  datatype Pixel = Pixel(r: byte, g: byte, b: byte, a: byte)

  const CLEAR: Pixel := Pixel(0, 0, 0, 0)

  datatype Bitmap = Bitmap(w: nat, h: nat, pix: seq<Pixel>) {
    predicate Valid() { |pix| == w * h }

    function Row(y: nat): (row: seq<Pixel>)
      requires Valid() && y < h
      ensures |row| == w
    {
      RowInRange(w, h, y);
      pix[y * w..y * w + w]
    }
  }

  lemma RowInRange(w: nat, h: nat, y: nat)
    requires y < h
    ensures 0 <= y * w <= y * w + w <= w * h
  {
    MulMono(y + 1, h, w);
  }

  lemma MulMono(a: nat, b: nat, w: nat)
    requires a <= b
    ensures a * w <= b * w
  {}

  function PixelBytes(p: Pixel): seq<byte> { [p.r, p.g, p.b, p.a] }

  function RowBytes(row: seq<Pixel>): (s: seq<byte>)
    ensures |s| == 4 * |row|
  {
    if row == [] then [] else RowBytes(row[..|row| - 1]) + PixelBytes(row[|row| - 1])
  }

  function Minus(a: byte, b: byte): byte { (a - b) % 256 }

  /** A pixel less the one to its left, byte by byte. */
  function Difference(p: Pixel, left: Pixel): seq<byte> {
    [Minus(p.r, left.r), Minus(p.g, left.g), Minus(p.b, left.b), Minus(p.a, left.a)]
  }

  /** A row after the Sub filter, of section 6.3 of RFC 2083. */
  function SubRow(row: seq<Pixel>): (s: seq<byte>)
    ensures |s| == 4 * |row|
  {
    if row == [] then []
    else SubRow(row[..|row| - 1]) + Difference(row[|row| - 1], if |row| == 1 then CLEAR else row[|row| - 2])
  }

  /** The first `n` rows as the writer filters them, each behind its filter byte. */
  function FilteredRows(bmp: Bitmap, n: nat): (s: seq<byte>)
    requires bmp.Valid() && n <= bmp.h
    ensures |s| == n * (4 * bmp.w + 1)
  {
    if n == 0 then []
    else
      OneMore(n, 4 * bmp.w + 1);
      FilteredRows(bmp, n - 1) + ([1] + SubRow(bmp.Row(n - 1)))
  }

  lemma OneMore(n: nat, k: nat)
    requires n > 0
    ensures (n - 1) * k + k == n * k
  {}
}
