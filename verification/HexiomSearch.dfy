/** The Hexiom search: choosing a cell, judging a position, and backtracking. */
module HexiomSearch {
  import opened Basics
  import opened HexiomBoard
  import opened HexGrid
  import opened Hexiom
  import opened HexiomRules
  import opened Wrappers

  // ---------- choosing a cell ----------

  ghost predicate NoEmptyCell(cells: Cells) { forall i :: 0 <= i < |cells| ==> cells[i] != [] }

  /** What every strategy promises: no cell when none has a choice left, else an unfixed one. */
  ghost predicate Chosen(cells: Cells, cell: int) {
    && cell < |cells|
    && (cell >= 0 ==> !Fixed(cells[cell]))
    && (cell < 0 ==> forall i :: 0 <= i < |cells| ==> |cells[i]| <= 1)
  }

  method NextCellFirst(done: Done) returns (cell: int)
    requires done.Valid()
    ensures Chosen(done.cells, cell)
    ensures cell < 0 ==> forall i :: 0 <= i < done.count ==> Fixed(done.cells[i])
    ensures forall i :: 0 <= i < cell ==> Fixed(done.cells[i])
  {
    for i := 0 to done.count
      invariant forall k :: 0 <= k < i ==> Fixed(done.cells[k])
    {
      if !done.AlreadyDone(i) {
        return i;
      }
    }
    cell := -1;
  }

  lemma {:induction false} ShortCell(c: seq<nat>, n: nat)
    requires CellOk(c) && n <= 8 && forall k :: 0 <= k < |c| ==> c[k] < n
    ensures |c| <= n
  {
    if c != [] {
      assert c[0] < n;
      if k :| 0 <= k < |c| && c[k] == n - 1 {
        var d := c[..k] + c[k + 1..];
        forall i | 0 <= i < |d|
          ensures d[i] < n - 1
        {
          assert d[i] == if i < k then c[i] else c[i + 1];
        }
        ShortCell(d, n - 1);
      } else {
        ShortCell(c, n - 1);
      }
    }
  }

  /** The cell with fewest values left, of those with a choice. */
  method NextCellMinChoice(done: Done) returns (mini: int)
    requires done.Valid()
    ensures Chosen(done.cells, mini)
    ensures mini >= 0 ==> forall i :: 0 <= i < done.count && |done.cells[i]| > 1 ==>
              |done.cells[mini]| <= |done.cells[i]|
  {
    var minlen := 10;
    mini := -1;
    for i := 0 to done.count
      invariant mini < i && (mini < 0 ==> minlen == 10) && (mini >= 0 ==> 1 < minlen == |done.cells[mini]|)
      invariant forall k :: 0 <= k < i && |done.cells[k]| > 1 ==> minlen <= |done.cells[k]| && mini >= 0
    {
      ShortCell(done.cells[i], 8);
      if 1 < |done.cells[i]| < minlen {
        minlen := |done.cells[i]|;
        mini := i;
      }
    }
  }

  /** The first of the cells with most values left, of those with a choice. */
  method NextCellMaxChoice(done: Done) returns (maxi: int)
    requires done.Valid()
    ensures Chosen(done.cells, maxi)
    ensures maxi >= 0 ==> forall i :: 0 <= i < done.count ==> |done.cells[i]| <= |done.cells[maxi]|
  {
    var maxlen := 1;
    maxi := -1;
    for i := 0 to done.count
      invariant maxi < i && (maxi < 0 ==> maxlen == 1) && (maxi >= 0 ==> 1 < maxlen == |done.cells[maxi]|)
      invariant forall k :: 0 <= k < i ==> |done.cells[k]| <= maxlen
    {
      if maxlen < |done.cells[i]| {
        maxlen := |done.cells[i]|;
        maxi := i;
      }
    }
  }

  /** The greatest tile in a cell; `max` over nothing raises. */
  method Highest(cell: seq<nat>) returns (r: Option<nat>)
    requires CellOk(cell)
    ensures r.None? <==> forall k :: 0 <= k < |cell| ==> cell[k] == EMPTY
    ensures r.Some? ==> r.value in cell && r.value != EMPTY && forall w :: w in cell && w != EMPTY ==> w <= r.value
  {
    r := None;
    for k := 0 to |cell|
      invariant r.None? <==> forall j :: 0 <= j < k ==> cell[j] == EMPTY
      invariant r.Some? ==> r.value in cell && r.value != EMPTY && forall j :: 0 <= j < k && cell[j] != EMPTY ==>
                  cell[j] <= r.value
    {
      if cell[k] != EMPTY && (r.None? || cell[k] > r.value) {
        r := Some(cell[k]);
      }
    }
  }

  /** No unfixed cell among the first `n` has a tile above `h`. */
  ghost predicate Tops(cells: Cells, h: int, n: nat)
    requires n <= |cells|
  {
    forall i, w :: 0 <= i < n && !Fixed(cells[i]) && w in cells[i] && w != EMPTY ==> w <= h
  }

  /** The strategy that looks for the highest value raises just when some cell has no value left. */
  method NextCellHighestValue(done: Done) returns (cell: int, raised: bool)
    requires done.Valid()
    ensures raised <==> !NoEmptyCell(done.cells)
    ensures !raised ==> Chosen(done.cells, cell)
    ensures !raised && cell >= 0 ==> exists h :: h in done.cells[cell] && h != EMPTY && Tops(done.cells, h, done.count)
  {
    var maxval: int := -1;
    cell, raised := -1, false;
    for i := 0 to done.count
      invariant cell < i && (cell >= 0 ==> !Fixed(done.cells[cell]))
      invariant (cell < 0 ==> maxval == -1 && forall k :: 0 <= k < i ==> Fixed(done.cells[k]))
      invariant forall k :: 0 <= k < i ==> done.cells[k] != []
      invariant cell >= 0 ==> maxval >= 0 && maxval in done.cells[cell] && maxval != EMPTY
      invariant Tops(done.cells, maxval, i)
    {
      if !done.AlreadyDone(i) {
        var maxvali := Highest(done.cells[i]);
        OnlyEmpty(done.cells[i]);
        if maxvali.None? {
          return -1, true;
        }
        if maxval < maxvali.value {
          maxval := maxvali.value;
          cell := i;
        }
      }
    }
  }

  /** A cell with a choice has a value other than EMPTY. */
  lemma OnlyEmpty(c: seq<nat>)
    requires CellOk(c) && !Fixed(c)
    ensures (forall k :: 0 <= k < |c| ==> c[k] == EMPTY) <==> c == []
  {
    assert |c| > 1 ==> c[0] != c[1];
  }

  /** Most, or fewest, fixed and filled neighbours. */
  method NextCellByNeighbors(pos: Pos, most: bool) returns (cell: int)
    requires pos.Valid()
    ensures Chosen(pos.done.cells, cell)
    ensures cell < 0 ==> forall i :: 0 <= i < pos.done.count ==> Fixed(pos.done.cells[i])
    ensures cell >= 0 ==> forall i :: 0 <= i < pos.done.count && !Fixed(pos.done.cells[i]) ==>
              var n, b := Low(pos.done.cells, pos.links[i]), Low(pos.done.cells, pos.links[cell]);
              if most then n <= b else n >= b
  {
    var best: int := if most then -1 else 7;
    cell := -1;
    for i := 0 to pos.done.count
      invariant cell < i && (cell >= 0 ==> !Fixed(pos.done.cells[cell]))
      invariant cell >= 0 ==> best == Low(pos.done.cells, pos.links[cell])
      invariant forall k :: 0 <= k < i && !Fixed(pos.done.cells[k]) ==>
                  var n := Low(pos.done.cells, pos.links[k]);
                  if most then n <= best else n >= best
      invariant cell < 0 ==> best == (if most then -1 else 7) && forall k :: 0 <= k < i ==> Fixed(pos.done.cells[k])
    {
      if !pos.done.AlreadyDone(i) {
        var n, vmax := CountAround(pos.done, pos.links[i]);
        if (most && n > best) || (!most && n < best) {
          best := n;
          cell := i;
        }
      }
    }
  }

  /** What each strategy looks for. */
  ghost predicate Preferred(pos: Pos, strategy: Strategy, cell: nat)
    requires pos.Valid() && cell < pos.done.count
    reads pos, pos.done
  {
    var cells := pos.done.cells;
    match strategy
    case HighestValue => exists h :: h in cells[cell] && h != EMPTY && Tops(cells, h, |cells|)
    case MinChoice => forall i :: 0 <= i < |cells| && |cells[i]| > 1 ==> |cells[cell]| <= |cells[i]|
    case MaxChoice => forall i :: 0 <= i < |cells| ==> |cells[i]| <= |cells[cell]|
    case First => forall i :: 0 <= i < cell ==> Fixed(cells[i])
    case MaxNeighbors => forall i :: 0 <= i < |cells| && !Fixed(cells[i]) ==>
                           Low(cells, pos.links[i]) <= Low(cells, pos.links[cell])
    case MinNeighbors => forall i :: 0 <= i < |cells| && !Fixed(cells[i]) ==>
                           Low(cells, pos.links[i]) >= Low(cells, pos.links[cell])
  }

  method NextCell(pos: Pos, strategy: Strategy) returns (cell: int, raised: bool)
    requires pos.Valid()
    ensures raised <==> strategy.HighestValue? && !NoEmptyCell(pos.done.cells)
    ensures !raised ==> Chosen(pos.done.cells, cell) && (cell >= 0 ==> Preferred(pos, strategy, cell))
  {
    hide Low, Unknown;
    cell, raised := -1, false;
    match strategy {
      case HighestValue => cell, raised := NextCellHighestValue(pos.done);
      case MinChoice => cell := NextCellMinChoice(pos.done);
      case MaxChoice => cell := NextCellMaxChoice(pos.done);
      case First => cell := NextCellFirst(pos.done);
      case MaxNeighbors => cell := NextCellByNeighbors(pos, true);
      case MinNeighbors => cell := NextCellByNeighbors(pos, false);
    }
  }

  // ---------- moves ----------

  function Tiles(s: seq<nat>): seq<nat> {
    if s == [] then [] else Tiles(s[..|s| - 1]) + if s[|s| - 1] != EMPTY then [s[|s| - 1]] else []
  }

  /** The values to try in a cell; descending means the last first, and EMPTY at the end. */
  function ValuesInOrder(cell: seq<nat>, order: Order): seq<nat> {
    if order.Ascending? then cell else Reversed(Tiles(cell)) + if EMPTY in cell then [EMPTY] else []
  }

  lemma {:induction false} TilesValues(s: seq<nat>)
    ensures forall v :: v in Tiles(s) <==> v in s && v != EMPTY
  {
    if s != [] { TilesValues(s[..|s| - 1]); assert s == s[..|s| - 1] + [s[|s| - 1]]; }
  }

  /** In either order, every value of the cell is tried and no other. */
  lemma SameValues(cell: seq<nat>, order: Order)
    ensures forall v :: v in ValuesInOrder(cell, order) <==> v in cell
    ensures |ValuesInOrder(cell, order)| == 0 <==> cell == []
  {
    ReversedElements(Tiles(cell));
    TilesValues(cell);
    var vs := ValuesInOrder(cell, order);
    assert vs != [] ==> vs[0] in vs;
    assert cell != [] ==> cell[0] in cell;
  }

  /** find_moves: a cell and the values to try there. */
  method FindMoves(pos: Pos, strategy: Strategy, order: Order) returns (cell: nat, values: seq<nat>, raised: bool)
    requires pos.Valid()
    ensures raised <==> strategy.HighestValue? && !NoEmptyCell(pos.done.cells)
    ensures !raised && values != [] ==>
              cell < pos.done.count && |pos.done.cells[cell]| > 1 && forall v :: v in values <==>
                  v in pos.done.cells[cell]
    ensures !raised && values != [] ==> Preferred(pos, strategy, cell)
    ensures !raised && values == [] ==>
              !NoEmptyCell(pos.done.cells) || forall i :: 0 <= i < pos.done.count ==> Fixed(pos.done.cells[i])
  {
    var id;
    id, raised := NextCell(pos, strategy);
    cell, values := 0, [];
    if raised || id < 0 {
      return;
    }
    cell := id;
    values := ValuesInOrder(pos.done.cells[cell], order);
    SameValues(pos.done.cells[cell], order);
  }

  // ---------- judging a position ----------

  /** The assignment of a board whose cells are all fixed. */
  function Assignment(cells: Cells): (a: seq<nat>)
    requires forall i :: 0 <= i < |cells| ==> Fixed(cells[i])
    ensures |a| == |cells| && forall i :: 0 <= i < |a| ==> cells[i] == [a[i]]
  {
    seq(|cells|, (i: nat) requires i < |cells| && Fixed(cells[i]) => cells[i][0])
  }

  lemma NoUnknown(cells: Cells, ids: seq<nat>)
    requires (forall k :: 0 <= k < |ids| ==> ids[k] < |cells|) && forall i :: 0 <= i < |cells| ==> Fixed(cells[i])
    ensures Unknown(cells, ids) == []
  {
    if ids != [] { NoUnknown(cells, ids[..|ids| - 1]); }
  }

  /** The checks of `solved` on one fixed cell. */
  ghost predicate CellPasses(pos: Pos, i: nat)
    requires pos.Valid() && i < pos.done.count && Fixed(pos.done.cells[i])
    reads pos, pos.done
  {
    var num, low := pos.done.cells[i][0], Low(pos.done.cells, pos.links[i]);
    num != EMPTY ==> low <= num <= low + |Unknown(pos.done.cells, pos.links[i])|
  }

  lemma FailedCell(pos: Pos, i: nat)
    requires pos.Valid() && i < pos.done.count && Fixed(pos.done.cells[i]) && !CellPasses(pos, i)
    ensures !Solvable(pos.done.cells, pos.links, pos.tiles)
  {
    forall a
      ensures !Candidate(a, pos.done.cells, pos.links, pos.tiles)
    {
      if Candidate(a, pos.done.cells, pos.links, pos.tiles) {
        assert a[i] == pos.done.cells[i][0];
        FilledSplits(a, pos.done.cells, pos.links[i]);
      }
    }
  }

  lemma EmptyCell(pos: Pos, i: nat)
    requires pos.Valid() && i < pos.done.count && pos.done.cells[i] == []
    ensures !Solvable(pos.done.cells, pos.links, pos.tiles)
  {}

  lemma {:induction false} CountGrows(cells: Cells, v: nat, i: nat)
    requires i <= |cells|
    ensures CountFixed(cells[..i], v) <= CountFixed(cells, v)
    decreases |cells|
  {
    if i < |cells| {
      CountGrows(cells[..|cells| - 1], v, i);
      assert cells[..|cells| - 1][..i] == cells[..i];
    } else {
      assert cells[..i] == cells;
    }
  }

  lemma TooMany(pos: Pos, v: nat, i: nat)
    requires pos.Valid() && v < 8 && i <= pos.done.count && CountFixed(pos.done.cells[..i], v) > pos.tiles[v]
    ensures !Solvable(pos.done.cells, pos.links, pos.tiles)
  {
    CountGrows(pos.done.cells, v, i);
    forall a
      ensures !Candidate(a, pos.done.cells, pos.links, pos.tiles)
    {
      if Candidate(a, pos.done.cells, pos.links, pos.tiles) {
        UsesFixed(a, pos.done.cells, v);
      }
    }
  }

  /** The first `i` cells pass, and `left` tiles remain after them. */
  ghost predicate Judged(pos: Pos, left: seq<int>, i: nat, exact: bool, allDone: bool)
    requires pos.Valid() && i <= pos.done.count
    reads pos, pos.done
  {
    && |left| == 8
    && (forall v: nat :: v < 8 ==> left[v] == pos.tiles[v] - CountFixed(pos.done.cells[..i], v) && left[v] >= 0)
    && (forall k :: 0 <= k < i ==> pos.done.cells[k] != [])
    && (forall k :: 0 <= k < i && Fixed(pos.done.cells[k]) ==> CellPasses(pos, k))
    && (allDone <==> forall k :: 0 <= k < i ==> Fixed(pos.done.cells[k]))
    && (exact <==> forall k :: 0 <= k < i && Fixed(pos.done.cells[k]) && pos.done.cells[k][0] != EMPTY ==>
                     pos.done.cells[k][0] == Low(pos.done.cells, pos.links[k]))
  }

  /** The checks of `solved` on the number of a fixed cell. */
  method CheckNumber(pos: Pos, i: nat) returns (ok: bool, exact: bool)
    requires pos.Valid() && i < pos.done.count && Fixed(pos.done.cells[i])
    ensures ok <==> CellPasses(pos, i)
    ensures exact <==> pos.done.cells[i][0] != EMPTY ==> pos.done.cells[i][0] == Low(pos.done.cells, pos.links[i])
  {
    hide Low, Unknown, CellsOk;
    ok, exact := true, true;
    var num := pos.done.cells[i][0];
    if num != EMPTY {
      var vmin, vmax := CountAround(pos.done, pos.links[i]);
      if num < vmin || num > vmax {
        ok := false;
      }
      if num != vmin {
        exact := false;
      }
    }
  }

  /** One turn of the loop in `solved`. */
  method JudgeCell(pos: Pos, i: nat, left: seq<int>, exact: bool, allDone: bool)
    returns (ok: bool, l: seq<int>, e: bool, d: bool)
    requires pos.Valid() && i < pos.done.count && Judged(pos, left, i, exact, allDone)
    ensures ok ==> Judged(pos, l, i + 1, e, d)
    ensures !ok ==> !Solvable(pos.done.cells, pos.links, pos.tiles)
  {
    l, e, d, ok := left, exact, allDone, true;
    EightLeft(pos, left, i, exact, allDone);
    CellShape(pos, i);
    hide *;
    if |pos.done.cells[i]| == 0 {
      EmptyCell(pos, i);
      ok := false;
    } else if pos.done.AlreadyDone(i) {
      var num := pos.done.cells[i][0];
      l := l[num := l[num] - 1];
      if l[num] < 0 {
        UsedTooOften(pos, left, i, exact, allDone);
        ok := false;
        return;
      }
      var same;
      ok, same := CheckNumber(pos, i);
      if ok {
        e := e && same;
        NextFixed(pos, left, i, exact, allDone, e);
      } else {
        FailedCell(pos, i);
      }
    } else {
      d := false;
      NextUnfixed(pos, left, i, exact, allDone);
    }
  }

  lemma CellShape(pos: Pos, i: nat)
    requires pos.Valid() && i < pos.done.count
    ensures |pos.done.cells| == pos.done.count && |pos.tiles| == 8 && |pos.links| == pos.done.count
    ensures pos.done.AlreadyDone(i) <==> Fixed(pos.done.cells[i])
    ensures Fixed(pos.done.cells[i]) <==> |pos.done.cells[i]| == 1
  {
    hide CellsOk, LinksOk, Total;
  }

  lemma EightLeft(pos: Pos, left: seq<int>, i: nat, exact: bool, allDone: bool)
    requires pos.Valid() && i <= pos.done.count && Judged(pos, left, i, exact, allDone)
    ensures |left| == 8
    ensures i < pos.done.count && Fixed(pos.done.cells[i]) ==> pos.done.cells[i][0] < 8
  {
    assert i < pos.done.count ==> CellOk(pos.done.cells[i]);
  }

  lemma UsedTooOften(pos: Pos, left: seq<int>, i: nat, exact: bool, allDone: bool)
    requires pos.Valid() && i < pos.done.count && Judged(pos, left, i, exact, allDone) && Fixed(pos.done.cells[i])
    requires pos.done.cells[i][0] < 8 && left[pos.done.cells[i][0]] - 1 < 0
    ensures !Solvable(pos.done.cells, pos.links, pos.tiles)
  {
    hide Solvable, CellPasses;
    assert pos.done.cells[..i + 1][..i] == pos.done.cells[..i];
    TooMany(pos, pos.done.cells[i][0], i + 1);
  }

  lemma NextUnfixed(pos: Pos, left: seq<int>, i: nat, exact: bool, allDone: bool)
    requires pos.Valid() && i < pos.done.count && Judged(pos, left, i, exact, allDone)
    requires pos.done.cells[i] != [] && !Fixed(pos.done.cells[i])
    ensures Judged(pos, left, i + 1, exact, false)
  {
    hide CellPasses, Low, Unknown;
    assert pos.done.cells[..i + 1][..i] == pos.done.cells[..i];
  }

  lemma NextFixed(pos: Pos, left: seq<int>, i: nat, exact: bool, allDone: bool, e: bool)
    requires pos.Valid() && i < pos.done.count && Judged(pos, left, i, exact, allDone)
    requires Fixed(pos.done.cells[i]) && pos.done.cells[i][0] < 8 && CellPasses(pos, i)
    requires left[pos.done.cells[i][0]] - 1 >= 0
    requires e <==>
               exact && (pos.done.cells[i][0] != EMPTY ==> pos.done.cells[i][0] == Low(pos.done.cells, pos.links[i]))
    ensures Judged(pos, left[pos.done.cells[i][0] := left[pos.done.cells[i][0]] - 1], i + 1, e, allDone)
  {
    hide CellPasses, Low, Unknown;
    assert pos.done.cells[..i + 1][..i] == pos.done.cells[..i];
  }

  lemma {:induction false} UsesAreFixed(cells: Cells, v: nat)
    requires forall i :: 0 <= i < |cells| ==> Fixed(cells[i])
    ensures Uses(Assignment(cells), v) == CountFixed(cells, v)
  {
    if cells != [] {
      var k := |cells| - 1;
      UsesAreFixed(cells[..k], v);
      assert Assignment(cells)[..k] == Assignment(cells[..k]);
    }
  }

  /** Every cell holds one tile. */
  lemma {:induction false} UsesAll(a: seq<nat>)
    requires forall i :: 0 <= i < |a| ==> a[i] < 8
    ensures Uses(a, 0) + Uses(a, 1) + Uses(a, 2) + Uses(a, 3) + Uses(a, 4) + Uses(a, 5) + Uses(a, 6) + Uses(a, 7) == |a|
  {
    if a != [] { UsesAll(a[..|a| - 1]); }
  }

  lemma TotalOfEight(t: seq<nat>)
    requires |t| == 8
    ensures Total(t) == t[0] + t[1] + t[2] + t[3] + t[4] + t[5] + t[6] + t[7]
  {
    var t7, t6, t5, t4 := t[..7], t[..6], t[..5], t[..4];
    assert t7[..6] == t6 && t6[..5] == t5 && t5[..4] == t4 && t4[..3] == t[..3] && t[..3][..2] == t[..2] &&
           t[..2][..1] == t[..1] && t[..1][..0] == [];
    assert Total(t[..1]) == t[0] && Total(t[..2]) == t[0] + t[1] && Total(t[..3]) == t[0] + t[1] + t[2];
    assert Total(t4) == t[0] + t[1] + t[2] + t[3] && Total(t5) == Total(t4) + t[4] && Total(t6) == Total(t5) + t[5] &&
           Total(t7) == Total(t6) + t[6];
  }

  /** All cells fixed, all checks passed and every number exact: the assignment is a solution,
      for the tiles add up to the cells. */
  lemma ExactIsSolution(pos: Pos, left: seq<int>)
    requires pos.Valid() && Judged(pos, left, pos.done.count, true, true)
    ensures Candidate(Assignment(pos.done.cells), pos.done.cells, pos.links, pos.tiles)
  {
    var cells, a := pos.done.cells, Assignment(pos.done.cells);
    assert cells[..pos.done.count] == cells;
    forall i | 0 <= i < |a|
      ensures a[i] < 8 && a[i] in cells[i] && (a[i] != EMPTY ==> a[i] == Filled(a, pos.links[i]))
    {
      AssignedCell(pos, left, i);
    }
    forall v: nat | v < 8
      ensures Uses(a, v) <= pos.tiles[v]
    {
      UsesAreFixed(cells, v);
    }
    hide Judged, Uses, Filled, Total, Assignment;
    UsesExactly(a, pos.tiles);
  }

  /** Eight counts within eight bounds, with the same sum, are the bounds. */
  lemma UsesExactly(a: seq<nat>, tiles: seq<nat>)
    requires |tiles| == 8 && Total(tiles) == |a|
    requires (forall i :: 0 <= i < |a| ==> a[i] < 8) && forall v: nat :: v < 8 ==> Uses(a, v) <= tiles[v]
    ensures forall v: nat :: v < 8 ==> Uses(a, v) == tiles[v]
  {
    UsesAll(a);
    TotalOfEight(tiles);
    hide Uses, Total;
  }

  lemma AssignedCell(pos: Pos, left: seq<int>, i: nat)
    requires pos.Valid() && Judged(pos, left, pos.done.count, true, true) && i < pos.done.count
    ensures var a := Assignment(pos.done.cells);
            a[i] < 8 && a[i] in pos.done.cells[i] && (a[i] != EMPTY ==> a[i] == Filled(a, pos.links[i]))
  {
    var cells, a := pos.done.cells, Assignment(pos.done.cells);
    assert CellOk(cells[i]) && cells[i][0] == a[i];
    assert Fits(a, cells);
    FilledSplits(a, cells, pos.links[i]);
    NoUnknown(cells, pos.links[i]);
    hide Low, Unknown, CellPasses;
  }

  /** With every cell fixed and within its bounds, every number is exact. */
  lemma DoneIsExact(pos: Pos, left: seq<int>, exact: bool)
    requires pos.Valid() && Judged(pos, left, pos.done.count, exact, true)
    ensures exact
  {
    forall k | 0 <= k < pos.done.count && pos.done.cells[k][0] != EMPTY
      ensures pos.done.cells[k][0] == Low(pos.done.cells, pos.links[k])
    {
      NoUnknown(pos.done.cells, pos.links[k]);
      assert CellPasses(pos, k);
    }
  }

  /** solved: SOLVED and IMPOSSIBLE are right, and OPEN means that some cell has a choice left. */
  method IsSolved(pos: Pos) returns (status: Status)
    requires pos.Valid()
    ensures status != Raised
    ensures status == Solved ==> Solvable(pos.done.cells, pos.links, pos.tiles)
    ensures status == Impossible ==> !Solvable(pos.done.cells, pos.links, pos.tiles)
    ensures status == Open ==>
              NoEmptyCell(pos.done.cells) && exists i :: 0 <= i < pos.done.count && !Fixed(pos.done.cells[i])
  {
    var left: seq<int>, exact, allDone := seq(8, v requires 0 <= v < 8 => pos.tiles[v]), true, true;
    hide Solvable, CellPasses;
    for i := 0 to pos.done.count
      invariant Judged(pos, left, i, exact, allDone)
    {
      var ok;
      ok, left, exact, allDone := JudgeCell(pos, i, left, exact, allDone);
      if !ok {
        return Impossible;
      }
    }
    if allDone {
      DoneIsExact(pos, left, exact);
      ExactIsSolution(pos, left);
      HasCandidate(Assignment(pos.done.cells), pos.done.cells, pos.links, pos.tiles);
    }
    if !allDone || !exact {
      return Open;
    }
    status := Solved;
  }

  lemma HasCandidate(a: seq<nat>, cells: Cells, links: Links, tiles: seq<nat>)
    requires LinksOk(links) && |tiles| == 8 && Candidate(a, cells, links, tiles)
    ensures Solvable(cells, links, tiles)
  {}

  // ---------- the search ----------

  /** Fixing a cell to one of its values. */
  lemma MoveSmaller(cells: Cells, cell: nat, v: nat)
    requires CellsOk(cells) && cell < |cells| && |cells[cell]| > 1 && v in cells[cell]
    ensures CellsOk(cells[cell := [v]]) && Size(cells[cell := [v]]) < Size(cells)
  {
    SizeUpdate(cells, cell, [v]);
    hide Size;
  }

  /** A board is solvable just when it is with one of the values of a cell. */
  lemma SomeValueSolves(cells: Cells, cell: nat, links: Links, tiles: seq<nat>)
    requires LinksOk(links) && |tiles| == 8 && cell < |cells|
    ensures Solvable(cells, links, tiles) <==>
              exists v :: v in cells[cell] && Solvable(cells[cell := [v]], links, tiles)
  {
    hide Solution;
    if Solvable(cells, links, tiles) {
      var a :| Candidate(a, cells, links, tiles);
      assert Candidate(a, cells[cell := [a[cell]]], links, tiles);
    }
    if v :| v in cells[cell] && Solvable(cells[cell := [v]], links, tiles) {
      var a :| Candidate(a, cells[cell := [v]], links, tiles);
      assert Candidate(a, cells, links, tiles);
    }
  }

  /** One turn of the loop over the moves: play it, propagate, judge, and search on if still open. */
  method TryMove(pos: Pos, cell: nat, v: nat, strategy: Strategy, order: Order) returns (status: Status)
    requires pos.Valid() && cell < pos.done.count && |pos.done.cells[cell]| > 1 && v in pos.done.cells[cell]
    ensures status == Solved || status == Impossible
    ensures status == Solved <==> Solvable(pos.done.cells[cell := [v]], pos.links, pos.tiles)
    decreases Size(pos.done.cells), 0
  {
    ghost var played := pos.done.cells[cell := [v]];
    MoveSmaller(pos.done.cells, cell, v);
    hide Size, Solvable, CellsOk, Narrower;
    var newPos := pos.Clone();
    newPos.done.SetDone(cell, v);
    Propagate(newPos, cell);
    SameSolvable(newPos.done.cells, played, pos.links, pos.tiles, false);
    status := IsSolved(newPos);
    if status == Open {
      status := SolveOpen(newPos, strategy, order);
    }
  }

  /** solve_step without a first propagation, and _ss: SOLVED just when a solution exists, else
      IMPOSSIBLE; the one strategy that can raise does so just when a cell has no value left. */
  method SolveOpen(pos: Pos, strategy: Strategy, order: Order) returns (status: Status)
    requires pos.Valid()
    ensures status == Raised <==> strategy.HighestValue? && !NoEmptyCell(pos.done.cells)
    ensures status != Raised ==> status == if Solvable(pos.done.cells, pos.links, pos.tiles) then Solved else Impossible
    decreases Size(pos.done.cells), 2
  {
    hide Solvable, Size, CellsOk, LinksOk, Total;
    var cell, values, raised := FindMoves(pos, strategy, order);
    if raised {
      return Raised;
    }
    if |values| == 0 {
      status := IsSolved(pos);
      return;
    }
    status := TryAll(pos, cell, values, strategy, order);
  }

  /** The loop over the moves. */
  method TryAll(pos: Pos, cell: nat, values: seq<nat>, strategy: Strategy, order: Order) returns (status: Status)
    requires pos.Valid() && cell < pos.done.count && |pos.done.cells[cell]| > 1
    requires forall v :: v in values <==> v in pos.done.cells[cell]
    ensures status == if Solvable(pos.done.cells, pos.links, pos.tiles) then Solved else Impossible
    decreases Size(pos.done.cells), 1
  {
    SomeValueSolves(pos.done.cells, cell, pos.links, pos.tiles);
    hide Solvable, Size, CellsOk, LinksOk, Total, NoEmptyCell, Fixed;
    for k := 0 to |values|
      invariant forall j :: 0 <= j < k ==> !Solvable(pos.done.cells[cell := [values[j]]], pos.links, pos.tiles)
    {
      var ret := TryMove(pos, cell, values[k], strategy, order);
      if ret == Solved {
        return Solved;
      }
    }
    status := Impossible;
  }

  /** The exception is due just when the first propagation leaves a cell without values. */
  ghost predicate Raises(cells: Cells, links: Links, tiles: seq<nat>, strategy: Strategy)
    requires LinksOk(links) && |links| == |cells| && |tiles| == 8
  {
    strategy.HighestValue? && !NoEmptyCell(Propagated(cells, links, tiles, -1))
  }

  /** solve_step with a first propagation, and solve_step_first: the verdict on the board that was
      given. Only the highest-value strategy can raise, and only on a board without a solution. */
  method SolveStep(prev: Pos, strategy: Strategy, order: Order) returns (status: Status)
    requires prev.Valid()
    ensures status == Raised <==> Raises(prev.done.cells, prev.links, prev.tiles, strategy)
    ensures status != Raised ==> status == if Solvable(prev.done.cells, prev.links, prev.tiles) then Solved
              else Impossible
    ensures status == Raised ==> !Solvable(prev.done.cells, prev.links, prev.tiles)
  {
    hide Size, Solvable, CellsOk, Narrower, Propagated;
    var pos := prev.Clone();
    Propagate(pos, -1);
    SameSolvable(pos.done.cells, prev.done.cells, prev.links, prev.tiles, false);
    status := SolveOpen(pos, strategy, order);
    if status == Raised {
      ghost var i :| 0 <= i < pos.done.count && pos.done.cells[i] == [];
      EmptyCell(pos, i);
    }
  }

  /** The boards of every side with nothing but fives and sixes: the first corner has at most three
      neighbours, so the first rule empties it, and the highest-value strategy raises where the others
      answer. */
  lemma RaisingBoards(size: nat, nodes: seq<Point>, byPos: map<Point, nat>, links: Links, cells: Cells,
                      tiles: seq<nat>)
    requires size > 0 && Numbered(nodes, byPos) && forall p: Point :: p in byPos <==> InHex(size, p)
    requires LinksOk(links) && |links| == |nodes| == |cells| && |tiles| == 8
    requires forall i :: 0 <= i < |nodes| ==> links[i] == Around(byPos, nodes[i], 6)
    requires forall i :: 0 <= i < |cells| ==> cells[i] == [5, 6]
    ensures Raises(cells, links, tiles, HighestValue)
  {
    var p: Point := (0, 0);
    assert InHex(size, p) && p in byPos;
    var i := byPos[p];
    assert nodes[i] == p;
    if size == 1 { NoLinks(byPos, p); } else { LinkCount(size, byPos, p); }
    NoneFixed(cells, links[i]);
    hide Around, InHex, Propagated, Low, Unknown;
    EmptiedAtOnce(cells, links, tiles, i);
    assert Propagated(cells, links, tiles, -1)[i] == [];
  }

  lemma {:induction false} NoneFixed(cells: Cells, ids: seq<nat>)
    requires IdsOk(ids, |cells|) && forall i :: 0 <= i < |cells| ==> !Fixed(cells[i])
    ensures Low(cells, ids) == 0 && |Unknown(cells, ids)| == |ids|
  {
    if ids != [] { NoneFixed(cells, ids[..|ids| - 1]); }
  }

  /** The search of the benchmark, with its strategy and order, never raises: SOLVED exactly when
      a solution exists. */
  method SolveStepFirst(prev: Pos) returns (status: Status)
    requires prev.Valid()
    ensures status == if Solvable(prev.done.cells, prev.links, prev.tiles) then Solved else Impossible
  {
    status := SolveStep(prev, First, Descending);
  }

  // ---------- before the search ----------

  function Positive(t: int): nat { if t > 0 then t else 0 }

  function AllPositive(tiles: seq<int>): (r: seq<nat>)
    ensures |r| == |tiles| && forall v :: 0 <= v < |tiles| ==> r[v] == Positive(tiles[v])
  {
    seq(|tiles|, (v: nat) requires v < |tiles| => Positive(tiles[v]))
  }

  /** check_valid: missing tiles count as none, and the total must be the number of cells. */
  method CheckValid(count: nat, tiles: seq<int>) returns (r: Option<seq<nat>>)
    requires |tiles| == 8
    ensures r == if Total(AllPositive(tiles)) == count then Some(AllPositive(tiles)) else None
  {
    var tot := 0;
    ghost var all := AllPositive(tiles);
    var clean: seq<nat> := [];
    assert all[..0] == [];
    for i := 0 to 8
      invariant tot == Total(all[..i]) && clean == all[..i]
    {
      assert all[..i + 1][..i] == all[..i];
      if tiles[i] > 0 {
        tot := tot + tiles[i];
        clean := clean + [tiles[i]];
      } else {
        clean := clean + [0];
      }
    }
    assert all[..8] == all;
    if tot != count {
      return None;
    }
    r := Some(clean);
  }

  /** solve: None stands for the exception of check_valid. */
  method Solve(links: Links, tiles: seq<int>, done: Done, strategy: Strategy, order: Order) returns (r: Option<Status>)
    requires done.Valid() && LinksOk(links) && |links| == done.count && |tiles| == 8
    ensures r.None? <==> Total(AllPositive(tiles)) != done.count
    ensures r.Some? && r.value != Raised ==>
              r.value == if Solvable(done.cells, links, AllPositive(tiles)) then Solved else Impossible
    ensures r.Some? ==> (r.value == Raised <==> Raises(done.cells, links, AllPositive(tiles), strategy))
    ensures r.Some? && r.value == Raised ==> !Solvable(done.cells, links, AllPositive(tiles))
  {
    var clean := CheckValid(done.count, tiles);
    if clean.None? {
      return None;
    }
    hide Solvable, Size, Propagated;
    var pos := new Pos(links, clean.value, done);
    var status := SolveStep(pos, strategy, order);
    r := Some(status);
  }

  lemma {:induction false} NotUsed(a: seq<nat>, v: nat)
    requires Uses(a, v) == 0
    ensures forall i :: 0 <= i < |a| ==> a[i] != v
  {
    if a != [] { NotUsed(a[..|a| - 1], v); }
  }

  /** filter_tiles: taking tiles the board does not have from every cell keeps the solutions. */
  method FilterTiles(pos: Pos)
    requires pos.Valid()
    modifies pos.done
    ensures Led(pos, old(pos.done.cells), false)
  {
    ghost var start := pos.done.cells;
    KeepsSame(start, pos.links, pos.tiles);
    hide Keeps, CellOk, Without, Solution;
    for v := 0 to 8
      invariant Led(pos, start, false)
    {
      if pos.tiles[v] == 0 {
        ghost var before := pos.done.cells;
        RemoveAll(pos, v);
        KeepsTwice(pos.done.cells, before, start, pos.links, pos.tiles, false, false);
      }
    }
  }

  lemma NoSuchTile(cells: Cells, v: nat, links: Links, tiles: seq<nat>)
    requires LinksOk(links) && |tiles| == 8 && v < 8 && tiles[v] == 0
    ensures forall a, i :: Candidate(a, cells, links, tiles) && 0 <= i < |a| ==> a[i] != v
  {
    forall a | Candidate(a, cells, links, tiles)
      ensures forall i :: 0 <= i < |a| ==> a[i] != v
    {
      NotUsed(a, v);
    }
  }

  /** remove_all, of a tile the board does not have. */
  method RemoveAll(pos: Pos, v: nat)
    requires pos.Valid() && v < 8 && pos.tiles[v] == 0
    modifies pos.done
    ensures Led(pos, old(pos.done.cells), false)
  {
    ghost var start := pos.done.cells;
    KeepsSame(start, pos.links, pos.tiles);
    hide Keeps, CellOk, Without, Candidate;
    for i := 0 to pos.done.count
      invariant Led(pos, start, false)
    {
      ghost var before := pos.done.cells;
      NoSuchTile(before, v, pos.links, pos.tiles);
      OneCell(before, i, v, pos.links, pos.tiles);
      var removed := pos.done.Remove(i, v);
      KeepsTwice(pos.done.cells, before, start, pos.links, pos.tiles, false, removed);
      KeepsAnyway(pos.done.cells, start, pos.links, pos.tiles, removed);
    }
  }

  lemma OneCell(cells: Cells, i: nat, v: nat, links: Links, tiles: seq<nat>)
    requires LinksOk(links) && |tiles| == 8 && CellsOk(cells) && i < |cells|
    requires forall a, i :: Candidate(a, cells, links, tiles) && 0 <= i < |a| ==> a[i] != v
    ensures Keeps(cells[i := Without(cells[i], v)], cells, links, tiles, v in cells[i])
    ensures CellsOk(cells[i := Without(cells[i], v)])
  {
    hide Solution, CellOk, Keeps, Without;
    RemoveKeeps(cells, i, v, links, tiles);
  }

  lemma KeepsAnyway(now: Cells, was: Cells, links: Links, tiles: seq<nat>, changed: bool)
    requires LinksOk(links) && |tiles| == 8 && Keeps(now, was, links, tiles, changed)
    ensures Keeps(now, was, links, tiles, false)
  {
    hide Candidate, Size;
  }
}
