/** The hexagonal board: its cells, row by row, and the links between neighbours. */
module HexGrid {
  import opened HexiomBoard

  type Point = (int, int)

  const DIRS: seq<Point> := [(1, 0), (-1, 0), (0, 1), (0, -1), (1, 1), (-1, -1)]

  /** The board of side `size`: rows of `size` up to `2 * size - 1` cells and back. */
  predicate InHex(size: nat, p: Point) {
    var (x, y) := p;
    0 <= y < 2 * size - 1 && (if y < size then 0 else y - size + 1) <= x < (if y < size then size + y else 2 * size - 1)
  }

  function RowLength(size: nat, y: nat): nat
    requires y < 2 * size - 1
  {
    if y < size then size + y else 3 * size - 2 - y
  }

  /** The cells of the first `n` rows. */
  function CellsBefore(size: nat, n: nat): nat
    requires n <= 2 * size - 1 || n == 0
  {
    if n == 0 then 0 else CellsBefore(size, n - 1) + RowLength(size, n - 1)
  }

  lemma Twice(a: int, b: int)
    ensures (a + 1) * (b + 1) == a * b + a + b + 1
  {}

  lemma {:induction false} UpperHalf(size: nat, n: nat)
    requires 0 < size && n <= size
    ensures 2 * CellsBefore(size, n) == n * (2 * size + n - 1)
  {
    if n != 0 {
      UpperHalf(size, n - 1);
      Twice(n - 1, 2 * size + n - 2);
    }
  }

  lemma {:induction false} LowerHalf(size: nat, n: nat)
    requires 0 < size && size <= n <= 2 * size - 1
    ensures 2 * CellsBefore(size, n) == size * (3 * size - 1) + (n - size) * (5 * size - 3 - n)
    decreases n
  {
    if n == size {
      UpperHalf(size, size);
    } else {
      LowerHalf(size, n - 1);
      var d, e := n - 1 - size, 5 * size - 2 - n;
      assert (d + 1) * (e - 1) == d * e + e - d - 1;
    }
  }

  /** There are `3 * size * (size - 1) + 1` cells. */
  lemma AllCells(size: nat)
    requires 0 < size
    ensures CellsBefore(size, 2 * size - 1) == 3 * size * (size - 1) + 1
  {
    LowerHalf(size, 2 * size - 1);
    hide CellsBefore;
    Squares(size, size * size);
  }

  lemma Squares(s: int, q: int)
    requires q == s * s
    ensures (s - 1) * (3 * s - 2) == 3 * q - 5 * s + 2 && s * (3 * s - 1) == 3 * q - s &&
            3 * s * (s - 1) == 3 * q - 3 * s
  {}

  // ---------- the nodes ----------

  /** The cells so far have numbers of their own. */
  ghost predicate Numbered(nodes: seq<Point>, byPos: map<Point, nat>) {
    && (forall i :: 0 <= i < |nodes| ==> nodes[i] in byPos && byPos[nodes[i]] == i)
    && (forall p :: p in byPos ==> byPos[p] < |nodes| && nodes[byPos[p]] == p)
  }

  /** Row by row, each from left to right. */
  predicate Precedes(p: Point, q: Point) { p.1 < q.1 || (p.1 == q.1 && p.0 < q.0) }

  ghost predicate InOrder(nodes: seq<Point>) {
    forall i, j :: 0 <= i < j < |nodes| ==> Precedes(nodes[i], nodes[j])
  }

  /** Row `y` up to column `x`, all rows before, and nothing else. */
  ghost predicate FilledTo(size: nat, byPos: map<Point, nat>, y: nat, x: int) {
    forall p: Point :: p in byPos <==> InHex(size, p) && (p.1 < y || (p.1 == y && p.0 < x))
  }

  /** One row of cells, from column `first` to before column `last`. */
  method AddRow(size: nat, y: nat, first: nat, last: nat, nodes0: seq<Point>, byPos0: map<Point, nat>)
    returns (nodes: seq<Point>, byPos: map<Point, nat>)
    requires y < 2 * size - 1 && first == (if y < size then 0 else y - size + 1)
    requires last == (if y < size then size + y else 2 * size - 1)
    requires Numbered(nodes0, byPos0) && FilledTo(size, byPos0, y, first) && InOrder(nodes0)
    ensures InOrder(nodes)
    ensures Numbered(nodes, byPos) && FilledTo(size, byPos, y + 1, if y + 1 < size then 0 else y + 1 - size + 1)
    ensures |nodes| == |nodes0| + RowLength(size, y)
  {
    nodes, byPos := nodes0, byPos0;
    for x := first to last
      invariant Numbered(nodes, byPos) && FilledTo(size, byPos, y, x) && |nodes| == |nodes0| + (x - first)
      invariant InOrder(nodes)
    {
      var pos := (x, y);
      assert InHex(size, pos) && pos !in byPos;
      byPos := byPos[pos := |nodes|];
      nodes := nodes + [pos];
    }
  }

  /** The constructor of Hex: every cell of the board, numbered row by row. */
  method BuildHex(size: nat) returns (nodes: seq<Point>, byPos: map<Point, nat>)
    requires size > 0
    ensures InOrder(nodes) && Numbered(nodes, byPos) && |nodes| == 3 * size * (size - 1) + 1
    ensures forall p: Point :: p in byPos <==> InHex(size, p)
  {
    nodes, byPos := [], map[];
    hide RowLength;
    for y := 0 to size
      invariant Numbered(nodes, byPos) && FilledTo(size, byPos, y, if y < size then 0 else 1)
      invariant |nodes| == CellsBefore(size, y) && InOrder(nodes)
    {
      nodes, byPos := AddRow(size, y, 0, size + y, nodes, byPos);
    }
    for y := 1 to size
      invariant Numbered(nodes, byPos) && FilledTo(size, byPos, size + y - 1, y)
      invariant |nodes| == CellsBefore(size, size + y - 1) && InOrder(nodes)
    {
      nodes, byPos := AddRow(size, size + y - 1, y, size * 2 - 1, nodes, byPos);
    }
    AllCells(size);
  }

  // ---------- the links ----------

  /** The cell one step from `p` in a direction. */
  function Step(p: Point, d: int): Point
    requires 0 <= d < 6
  {
    (p.0 + DIRS[d].0, p.1 + DIRS[d].1)
  }

  /** Cells of a hexagonal board touch when neither coordinate nor the difference of the two changes
      by more than one. */
  predicate Neighbors(p: Point, q: Point) {
    var dx, dy := q.0 - p.0, q.1 - p.1;
    p != q && -1 <= dx <= 1 && -1 <= dy <= 1 && -1 <= dx - dy <= 1
  }

  /** The directions lead to all cells that touch, and to no other. */
  lemma NeighborsAreSteps(p: Point, q: Point)
    ensures Neighbors(p, q) <==> exists d :: 0 <= d < 6 && q == Step(p, d)
  {
    if Neighbors(p, q) {
      var dx, dy := q.0 - p.0, q.1 - p.1;
      var d := if dy == 0 then (if dx == 1 then 0 else 1) else if dx == 0 then (if dy == 1 then 2 else 3)
               else if dx == 1 then 4 else 5;
      assert q == Step(p, d);
    }
  }

  /** Neighbourhood goes both ways. */
  lemma NeighborsBack(p: Point, q: Point)
    requires Neighbors(p, q)
    ensures Neighbors(q, p)
  {}

  /** The links of the cells so far are exactly their neighbours on the board. */
  ghost predicate Linked(links: Links, nodes: seq<Point>, n: nat)
    requires n <= |links| && n <= |nodes|
  {
    forall i :: 0 <= i < n ==> LinksOf(links[i], nodes, i)
  }

  ghost predicate LinksOf(ids: seq<nat>, nodes: seq<Point>, i: nat)
    requires i < |nodes|
  {
    && |ids| <= 6 && Distinct(ids)
    && (forall k :: 0 <= k < |ids| ==> ids[k] < |nodes|)
    && (forall j: nat :: j < |nodes| ==> (j in ids <==> Neighbors(nodes[i], nodes[j])))
  }

  ghost predicate Distinct(ids: seq<nat>) { forall j, k :: 0 <= j < k < |ids| ==> ids[j] != ids[k] }

  /** The numbers of the neighbours in the first `n` directions. */
  function Around(byPos: map<Point, nat>, p: Point, n: nat): (ids: seq<nat>)
    requires n <= 6
    ensures |ids| <= n
  {
    if n == 0 then []
    else Around(byPos, p, n - 1) + if Step(p, n - 1) in byPos then [byPos[Step(p, n - 1)]] else []
  }

  lemma {:induction false} AroundIs(byPos: map<Point, nat>, nodes: seq<Point>, p: Point, n: nat)
    requires Numbered(nodes, byPos) && n <= 6
    ensures Distinct(Around(byPos, p, n))
    ensures forall j: nat :: j in Around(byPos, p, n) <==>
              j < |nodes| && exists e :: 0 <= e < n && nodes[j] == Step(p, e)
  {
    if n > 0 {
      AroundIs(byPos, nodes, p, n - 1);
      forall e | 0 <= e < n - 1
        ensures Step(p, e) != Step(p, n - 1)
      {
        DirectionsApart(e, n - 1);
      }
    }
  }

  lemma AroundLinks(byPos: map<Point, nat>, nodes: seq<Point>, i: nat)
    requires Numbered(nodes, byPos) && i < |nodes|
    ensures LinksOf(Around(byPos, nodes[i], 6), nodes, i)
  {
    AroundIs(byPos, nodes, nodes[i], 6);
    forall j: nat | j < |nodes|
      ensures Neighbors(nodes[i], nodes[j]) <==> exists d :: 0 <= d < 6 && nodes[j] == Step(nodes[i], d)
    {
      NeighborsAreSteps(nodes[i], nodes[j]);
    }
    hide Around, Step, Numbered, Neighbors;
    var ids := Around(byPos, nodes[i], 6);
    forall k | 0 <= k < |ids|
      ensures ids[k] < |nodes|
    {
      assert ids[k] in ids;
    }
  }

  lemma DirectionsApart(d: nat, e: nat)
    requires d < e < 6
    ensures DIRS[d] != DIRS[e]
  {}

  /** The links of one cell. */
  method LinkNode(nodes: seq<Point>, byPos: map<Point, nat>, i: nat) returns (ids: seq<nat>)
    requires Numbered(nodes, byPos) && i < |nodes|
    ensures LinksOf(ids, nodes, i) && ids == Around(byPos, nodes[i], 6)
  {
    ids := [];
    var (x, y) := nodes[i];
    for d := 0 to 6
      invariant ids == Around(byPos, nodes[i], d)
    {
      var q := (x + DIRS[d].0, y + DIRS[d].1);
      if q in byPos {
        ids := ids + [byPos[q]];
      }
    }
    AroundLinks(byPos, nodes, i);
  }

  /** link_nodes: each cell lists its neighbours on the board, in the order of the directions and each
      once, at most six, and both list each other. */
  method LinkNodes(nodes: seq<Point>, byPos: map<Point, nat>) returns (links: Links)
    requires Numbered(nodes, byPos)
    ensures |links| == |nodes| && LinksOk(links)
    ensures forall i: nat, j: nat :: i < |nodes| && j < |nodes| ==> (j in links[i] <==> Neighbors(nodes[i], nodes[j]))
    ensures forall i: nat, j: nat :: i < |nodes| && j < |nodes| && j in links[i] ==> i in links[j]
    ensures forall i :: 0 <= i < |nodes| ==> Distinct(links[i]) && links[i] == Around(byPos, nodes[i], 6)
  {
    links := [];
    hide Around;
    for i := 0 to |nodes|
      invariant |links| == i && Linked(links, nodes, i)
      invariant forall k :: 0 <= k < i ==> links[k] == Around(byPos, nodes[k], 6)
    {
      var ids := LinkNode(nodes, byPos, i);
      links := links + [ids];
    }
    forall i: nat, j: nat | i < |nodes| && j < |nodes| && j in links[i]
      ensures i in links[j]
    {
      assert LinksOf(links[i], nodes, i) && LinksOf(links[j], nodes, j);
      NeighborsBack(nodes[i], nodes[j]);
    }
  }

  // ---------- how many neighbours ----------

  /** The six corners. */
  predicate Corner(size: nat, p: Point) {
    var m, l := size - 1, 2 * size - 2;
    p == (0, 0) || p == (m, 0) || p == (0, m) || p == (l, m) || p == (m, l) || p == (l, l)
  }

  /** The cells of the first and the last row, and the ends of all rows. */
  predicate Border(size: nat, p: Point) {
    var (x, y) := p;
    y == 0 || y == 2 * size - 2 || x == (if y < size then 0 else y - size + 1) ||
    x == (if y < size then size + y - 1 else 2 * size - 2)
  }

  function Counted(size: nat, p: Point, d: int): nat
    requires 0 <= d < 6
  {
    if InHex(size, Step(p, d)) then 1 else 0
  }

  lemma AroundCount(size: nat, byPos: map<Point, nat>, p: Point)
    requires forall q: Point :: q in byPos <==> InHex(size, q)
    ensures |Around(byPos, p, 6)| == Counted(size, p, 0) + Counted(size, p, 1) + Counted(size, p, 2)
                                     + Counted(size, p, 3) + Counted(size, p, 4) + Counted(size, p, 5)
  {
    assert |Around(byPos, p, 2)| == Counted(size, p, 0) + Counted(size, p, 1);
    assert |Around(byPos, p, 4)| == |Around(byPos, p, 2)| + Counted(size, p, 2) + Counted(size, p, 3);
    assert |Around(byPos, p, 6)| == |Around(byPos, p, 4)| + Counted(size, p, 4) + Counted(size, p, 5);
  }

  function CountedAll(size: nat, p: Point): nat {
    Counted(size, p, 0) + Counted(size, p, 1) + Counted(size, p, 2) + Counted(size, p, 3) + Counted(size, p, 4)
    + Counted(size, p, 5)
  }

  lemma UpperCount(size: nat, p: Point)
    requires size >= 2 && InHex(size, p) && p.1 < size - 1
    ensures CountedAll(size, p) == if Corner(size, p) then 3 else if Border(size, p) then 4 else 6
  {}

  lemma MiddleCount(size: nat, p: Point)
    requires size >= 2 && InHex(size, p) && p.1 == size - 1
    ensures CountedAll(size, p) == if Corner(size, p) then 3 else if Border(size, p) then 4 else 6
  {}

  lemma LowerCount(size: nat, p: Point)
    requires size >= 2 && InHex(size, p) && p.1 >= size
    ensures CountedAll(size, p) == if Corner(size, p) then 3 else if Border(size, p) then 4 else 6
  {}

  /** On a board of side 2 or more a cell has three neighbours in a corner, four elsewhere on the
      border, and six inside. */
  lemma LinkCount(size: nat, byPos: map<Point, nat>, p: Point)
    requires size >= 2 && InHex(size, p) && forall q: Point :: q in byPos <==> InHex(size, q)
    ensures |Around(byPos, p, 6)| == if Corner(size, p) then 3 else if Border(size, p) then 4 else 6
  {
    AroundCount(size, byPos, p);
    assert |Around(byPos, p, 6)| == CountedAll(size, p);
    hide *;
    if p.1 < size - 1 {
      UpperCount(size, p);
    } else if p.1 == size - 1 {
      MiddleCount(size, p);
    } else {
      LowerCount(size, p);
    }
  }

  /** The only cell of a board of side 1 has none. */
  lemma NoLinks(byPos: map<Point, nat>, p: Point)
    requires InHex(1, p) && forall q: Point :: q in byPos <==> InHex(1, q)
    ensures p == (0, 0) && Around(byPos, p, 6) == []
  {
    AroundCount(1, byPos, p);
    hide Around;
  }
}
