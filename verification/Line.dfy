/** tigr's line: Bresenham's error term keeps every pixel within half a pixel of the ideal line. */
module Line {
  import opened Basics

  type Pixel = (int, int)

  function Abs(x: int): (r: int)
    ensures r >= 0
  {
    if x < 0 then -x else x
  }

  function Max(a: int, b: int): int { if a >= b then a else b }

  /** How far a pixel `i` columns and `j` rows from the start is off the line, times the longer side. */
  function Off(i: nat, j: nat, dx: nat, dy: nat): int { Prod(j, dx) - Prod(i, dy) }

  /** No further than half a pixel off the line in the direction of the shorter side; of two pixels
      half a pixel off, the one that has not stepped yet. */
  ghost predicate OnLine(i: int, j: int, dx: int, dy: int) {
    0 <= i <= dx && 0 <= j <= dy && Halfway(2 * Off(i, j, dx, dy), dx, dy)
  }

  predicate Halfway(twice: int, dx: int, dy: int) {
    if dx >= dy then -dx <= twice && (twice < dx || twice == 0) else -dy < twice <= dy
  }

  /** Pixel `k` is the `k`-th along the longer side, on the line, inside the bounding box. */
  ghost predicate KthPixel(p: Pixel, k: int, x0: int, y0: int, x1: int, y1: int) {
    var dx, dy := Abs(x1 - x0), Abs(y1 - y0);
    var i, j := Abs(p.0 - x0), Abs(p.1 - y0);
    && OnLine(i, j, dx, dy) && k == (if dx >= dy then i else j)
    && p.0 == (if x0 < x1 then x0 + i else x0 - i) && p.1 == (if y0 < y1 then y0 + j else y0 - j)
  }

  /** The next pixel: the tests of the loop, on the error term. */
  function StepX(i: int, err: int, dy: int): int { if 2 * err > -dy then i + 1 else i }

  function StepY(j: int, err: int, dx: int): int { if 2 * err < dx then j + 1 else j }

  /** On a diagonal both sides keep step. */
  lemma Diagonal(i: int, j: int, d: int)
    requires OnLine(i, j, d, d) && d > 0
    ensures i == j
  {
    ProdNext(i, d);
    ProdNext(j, d);
    if j > i {
      ProdOrder(i + 1, j, d);
    } else if i > j {
      ProdOrder(j + 1, i, d);
    }
    hide Prod;
  }

  /** The error term decides rightly which way to step: the longer side always advances, the other
      one just when that keeps the pixel on the line. */
  lemma StepStaysOnLine(i: int, j: int, dx: int, dy: int, err: int)
    requires OnLine(i, j, dx, dy) && err == Off(i, j, dx, dy) + dx - dy
    requires if dx >= dy then i < dx else j < dy
    ensures OnLine(StepX(i, err, dy), StepY(j, err, dx), dx, dy)
    ensures if dx >= dy then StepX(i, err, dy) == i + 1 else StepY(j, err, dx) == j + 1
  {
    ProdNext(i, dy);
    ProdNext(j, dx);
    if dx == dy {
      Diagonal(i, j, dx);
    }
    hide Prod;
    InsideBox(StepX(i, err, dy), StepY(j, err, dx), dx, dy);
  }

  /** The shorter side is not overshot. */
  lemma InsideBox(i: int, j: int, dx: int, dy: int)
    requires 0 <= i && 0 <= j && 0 <= dx && 0 <= dy && (if dx >= dy then i <= dx else j <= dy) && (dx > 0 || dy > 0)
    requires Halfway(2 * Off(i, j, dx, dy), dx, dy)
    ensures i <= dx && j <= dy
  {
    ProdSwap(dx, dy);
    if dx >= dy && j > dy {
      ProdNext(dy, dx);
      ProdOrder(dy + 1, j, dx);
      ProdOrder(i, dx, dy);
    } else if dx < dy && i > dx {
      ProdNext(dx, dy);
      ProdOrder(dx + 1, i, dy);
      ProdOrder(j, dy, dx);
    }
    hide Prod;
  }

  /** At the end of the longer side, the other one is at its end too. */
  lemma EndsTogether(i: int, j: int, dx: int, dy: int)
    requires OnLine(i, j, dx, dy)
    ensures (if dx >= dy then i == dx else j == dy) <==> i == dx && j == dy
  {
    ProdSwap(dx, dy);
    if dx >= dy && i == dx && j < dy {
      ProdNext(j, dx);
      ProdOrder(j + 1, dy, dx);
    } else if dx < dy && j == dy && i < dx {
      ProdNext(i, dy);
      ProdOrder(i + 1, dx, dy);
    }
    hide Prod;
  }

  /** After `k` turns of the loop: `i` columns and `j` rows on. */
  ghost predicate After(k: int, i: int, j: int, x: int, y: int, err: int, x0: int, y0: int, x1: int, y1: int) {
    var dx, dy := Abs(x1 - x0), Abs(y1 - y0);
    && OnLine(i, j, dx, dy) && err == Off(i, j, dx, dy) + dx - dy && k == (if dx >= dy then i else j)
    && x == (if x0 < x1 then x0 + i else x0 - i) && y == (if y0 < y1 then y0 + j else y0 - j)
  }

  /** One turn of the loop, away from the end. */
  lemma Turn(k: int, i: int, j: int, x: int, y: int, err: int, x0: int, y0: int, x1: int, y1: int)
    requires After(k, i, j, x, y, err, x0, y0, x1, y1) && (x != x1 || y != y1)
    ensures var dx, dy := Abs(x1 - x0), Abs(y1 - y0);
            After(k + 1, StepX(i, err, dy), StepY(j, err, dx),
                  if 2 * err > -dy then x + (if x0 < x1 then 1 else -1) else x,
                  if 2 * err < dx then y + (if y0 < y1 then 1 else -1) else y,
                  err - (if 2 * err > -dy then dy else 0) + (if 2 * err < dx then dx else 0), x0, y0, x1, y1)
    ensures k < Max(Abs(x1 - x0), Abs(y1 - y0)) && KthPixel((x, y), k, x0, y0, x1, y1)
  {
    var dx, dy := Abs(x1 - x0), Abs(y1 - y0);
    EndsTogether(i, j, dx, dy);
    StepStaysOnLine(i, j, dx, dy, err);
    ProdNext(i, dy);
    ProdNext(j, dx);
    hide Prod;
  }

  /** So there is no choice: at most one pixel is the `k`-th. */
  lemma OnePixel(p: Pixel, q: Pixel, k: int, x0: int, y0: int, x1: int, y1: int)
    requires KthPixel(p, k, x0, y0, x1, y1) && KthPixel(q, k, x0, y0, x1, y1)
    ensures p == q
  {
    var dx, dy := Abs(x1 - x0), Abs(y1 - y0);
    var i, j, i', j' := Abs(p.0 - x0), Abs(p.1 - y0), Abs(q.0 - x0), Abs(q.1 - y0);
    if dx >= dy {
      Rows(j, j', dx);
    } else {
      Rows(i, i', dy);
    }
    hide Prod;
  }

  /** Different multiples of the longer side lie that far apart. */
  lemma Rows(a: nat, b: nat, d: nat)
    ensures a < b ==> Prod(a, d) + d <= Prod(b, d)
    ensures b < a ==> Prod(b, d) + d <= Prod(a, d)
  {
    ProdNext(a, d);
    ProdNext(b, d);
    if a < b { ProdOrder(a + 1, b, d); } else if b < a { ProdOrder(b + 1, a, d); }
    hide Prod;
  }

  /** tigrLine: it ends at (x1, y1) exactly, after as many steps as the longer side is long; every
      plotted pixel is on the line. The end point itself is not plotted, unless it is the start. */
  method DrawLine(x0: int, y0: int, x1: int, y1: int) returns (plotted: seq<Pixel>, x: int, y: int)
    ensures (x, y) == (x1, y1)
    ensures |plotted| == Max(1, Max(Abs(x1 - x0), Abs(y1 - y0)))
    ensures forall k :: 0 <= k < |plotted| ==> KthPixel(plotted[k], k, x0, y0, x1, y1)
    ensures (x1, y1) in plotted <==> (x0, y0) == (x1, y1)
  {
    var dx, dy := Abs(x1 - x0), Abs(y1 - y0);
    var sx, sy := if x0 < x1 then 1 else -1, if y0 < y1 then 1 else -1;
    var err := dx - dy;
    x, y, plotted := x0, y0, [];
    ghost var i, j := 0, 0;
    Begin(x0, y0, x1, y1);
    hide OnLine, KthPixel, After, Off;
    var more := true;
    while more
      invariant After(if dx == 0 && dy == 0 then 0 else |plotted|, i, j, x, y, err, x0, y0, x1, y1)
      invariant more ==> (x != x1 || y != y1) || (dx == 0 && dy == 0 && |plotted| == 0)
      invariant !more ==> (x, y) == (x1, y1) && |plotted| > 0 && (dx == 0 && dy == 0 ==> |plotted| == 1)
      invariant forall k :: 0 <= k < |plotted| ==> KthPixel(plotted[k], k, x0, y0, x1, y1)
      invariant (x1, y1) in plotted <==> (x0, y0) == (x1, y1) && |plotted| > 0
      decreases Max(1, Max(dx, dy)) - |plotted|
    {
      var e2 := 2 * err;
      NowhereToGo(if dx == 0 && dy == 0 then 0 else |plotted|, i, j, x, y, err, x0, y0, x1, y1);
      if x != x1 || y != y1 {
        Turn(|plotted|, i, j, x, y, err, x0, y0, x1, y1);
      } else {
        OnlyPixel(x0, y0, x1, y1, i, j, x, y, err);
      }
      plotted := plotted + [(x, y)];
      i, j := StepX(i, err, dy), StepY(j, err, dx);
      if e2 > -dy {
        err := err - dy;
        x := x + sx;
      }
      if e2 < dx {
        err := err + dx;
        y := y + sy;
      }
      more := x != x1 || y != y1;
    }
    Finished(|plotted|, i, j, x, y, err, x0, y0, x1, y1);
  }

  lemma Begin(x0: int, y0: int, x1: int, y1: int)
    ensures After(0, 0, 0, x0, y0, Abs(x1 - x0) - Abs(y1 - y0), x0, y0, x1, y1)
  {}

  lemma NowhereToGo(k: int, i: int, j: int, x: int, y: int, err: int, x0: int, y0: int, x1: int, y1: int)
    requires After(k, i, j, x, y, err, x0, y0, x1, y1)
    ensures x0 == x1 && y0 == y1 ==> x == x1 && y == y1
  {
    hide Prod;
  }

  lemma OnlyPixel(x0: int, y0: int, x1: int, y1: int, i: int, j: int, x: int, y: int, err: int)
    requires x0 == x1 && y0 == y1 && After(0, i, j, x, y, err, x0, y0, x1, y1)
    ensures i == 0 && j == 0 && x == x0 && y == y0 && err == 0 && KthPixel((x, y), 0, x0, y0, x1, y1)
  {}

  lemma Finished(k: int, i: int, j: int, x: int, y: int, err: int, x0: int, y0: int, x1: int, y1: int)
    requires After(if x0 == x1 && y0 == y1 then 0 else k, i, j, x, y, err, x0, y0, x1, y1) && (x, y) == (x1, y1)
    ensures x0 != x1 || y0 != y1 ==> k == Max(Abs(x1 - x0), Abs(y1 - y0)) >= 1
  {
    hide Prod;
  }
}
