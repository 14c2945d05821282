/** The Hexiom solver: three propagation rules run to a fixpoint, and backtracking search. */
module Hexiom {
  import opened HexiomBoard
  import opened HexiomRules

  datatype Strategy = MinChoice | MaxChoice | HighestValue | First | MaxNeighbors | MinNeighbors

  datatype Order = Ascending | Descending

  /** Raised stands for the exception of `max` over nothing. */
  datatype Status = Open | Solved | Impossible | Raised

  class Done {
    const count: nat
    var cells: Cells

    constructor (cells: Cells)
      ensures this.cells == cells && count == |cells|
    {
      this.cells, count := cells, |cells|;
    }

    ghost predicate Valid()
      reads this
    {
      |cells| == count && CellsOk(cells)
    }

    method Clone() returns (r: Done)
      requires Valid()
      ensures fresh(r) && r.Valid() && r.cells == cells && r.count == count
    {
      r := new Done(cells);
    }

    predicate AlreadyDone(i: nat)
      requires i < |cells|
      reads this
    {
      Fixed(cells[i])
    }

    method SetDone(i: nat, v: nat)
      requires i < |cells|
      modifies this
      ensures cells == old(cells)[i := [v]]
    {
      cells := cells[i := [v]];
    }

    method Remove(i: nat, v: nat) returns (removed: bool)
      requires i < |cells|
      modifies this
      ensures removed <==> v in old(cells[i])
      ensures cells == old(cells)[i := Without(old(cells[i]), v)]
    {
      if v in cells[i] {
        cells := cells[i := Without(cells[i], v)];
        removed := true;
      } else {
        removed := false;
      }
    }

    /** remove_unfixed, of a value that no solution has in an unfixed cell. */
    method RemoveUnfixed(v: nat, ghost links: Links, ghost tiles: seq<nat>) returns (changed: bool)
      requires Valid() && LinksOk(links) && |tiles| == 8
      requires forall a, i :: Candidate(a, cells, links, tiles) && 0 <= i < count && !Fixed(cells[i]) ==> a[i] != v
      modifies this
      ensures Valid() && Keeps(cells, old(cells), links, tiles, changed)
      ensures forall i :: 0 <= i < count ==> cells[i] == if Fixed(old(cells)[i]) then old(cells)[i]
                else Without(old(cells)[i], v)
      ensures cells == Unfixed(old(cells), v, count) && (!changed ==> cells == old(cells))
    {
      hide *;
      changed := false;
      ghost var start := cells;
      ValidSize();
      KeepsSame(cells, links, tiles);
      UnfixedStart(cells, v);
      UnfixedIs(cells, v, count);
      for i := 0 to count
        invariant Valid() && Keeps(cells, start, links, tiles, changed)
        invariant cells == Unfixed(start, v, i) && (!changed ==> cells == start)
      {
        ghost var before := cells;
        NotHere(before, start, v, i, links, tiles, changed);
        var removed := RemoveOpen(i, v, links, tiles);
        UnfixedNext(start, v, i);
        KeepsTwice(cells, before, start, links, tiles, changed, removed);
        if removed {
          changed := true;
        }
      }
    }

    lemma ValidSize()
      requires Valid()
      ensures |cells| == count
    {}

    /** One turn of its loop. */
    method RemoveOpen(i: nat, v: nat, ghost links: Links, ghost tiles: seq<nat>) returns (removed: bool)
      requires Valid() && LinksOk(links) && |tiles| == 8 && i < count
      requires forall a :: Candidate(a, cells, links, tiles) && !Fixed(cells[i]) ==> a[i] != v
      modifies this
      ensures Valid() && Keeps(cells, old(cells), links, tiles, removed)
      ensures cells == OneUnfixed(old(cells), v, i) && (!removed ==> cells == old(cells))
    {
      removed := false;
      ghost var before := cells;
      KeepsSame(cells, links, tiles);
      hide Candidate, Keeps, CellOk, Without, Shrunk;
      if !AlreadyDone(i) {
        RemoveKeeps(before, i, v, links, tiles);
        removed := Remove(i, v);
      }
    }
  }

  lemma UnfixedStart(cells: Cells, v: nat)
    ensures Unfixed(cells, v, 0) == cells
  {}

  lemma UnfixedNext(cells: Cells, v: nat, i: nat)
    requires i < |cells|
    ensures Unfixed(cells, v, i + 1) == OneUnfixed(Unfixed(cells, v, i), v, i)
  {}

  lemma NotHere(now: Cells, was: Cells, v: nat, i: nat, links: Links, tiles: seq<nat>, changed: bool)
    requires LinksOk(links) && |tiles| == 8 && Keeps(now, was, links, tiles, changed) && i < |was| &&
             now == Unfixed(was, v, i)
    requires forall a, i :: Candidate(a, was, links, tiles) && 0 <= i < |was| && !Fixed(was[i]) ==> a[i] != v
    ensures forall a :: Candidate(a, now, links, tiles) && !Fixed(now[i]) ==> a[i] != v
  {
    UnfixedIs(was, v, i);
    StillCandidates(now, was, links, tiles, changed);
    hide Keeps, Solution, Unfixed, Without;
  }

  /** What solutions of the narrowed cells are, they were before. */
  lemma StillCandidates(now: Cells, was: Cells, links: Links, tiles: seq<nat>, changed: bool)
    requires LinksOk(links) && |tiles| == 8 && Keeps(now, was, links, tiles, changed)
    ensures forall a :: Candidate(a, now, links, tiles) ==> Candidate(a, was, links, tiles)
  {
    hide Size, Solution;
    forall a | Candidate(a, now, links, tiles)
      ensures Candidate(a, was, links, tiles)
    {
      FitsWider(a, now, was);
    }
  }

  class Pos {
    const links: Links
    const tiles: seq<nat>
    const done: Done

    constructor (links: Links, tiles: seq<nat>, done: Done)
      ensures this.links == links && this.tiles == tiles && this.done == done
    {
      this.links, this.tiles, this.done := links, tiles, done;
    }

    /** The board fits its cells, and there are as many tiles as cells. */
    ghost predicate Valid()
      reads this, done
    {
      && done.Valid() && LinksOk(links) && |links| == done.count
      && |tiles| == 8 && Total(tiles) == done.count
    }

    method Clone() returns (r: Pos)
      requires Valid()
      ensures fresh(r) && fresh(r.done) && r.Valid() && r.links == links && r.tiles == tiles &&
              r.done.cells == done.cells
    {
      var d := done.Clone();
      r := new Pos(links, tiles, d);
    }
  }

  function Total(tiles: seq<nat>): nat {
    if tiles == [] then 0 else Total(tiles[..|tiles| - 1]) + tiles[|tiles| - 1]
  }

  /** This pass has led from `was` to the present cells. */
  ghost predicate Led(pos: Pos, was: Cells, changed: bool)
    reads pos, pos.done
  {
    pos.Valid() && Keeps(pos.done.cells, was, pos.links, pos.tiles, changed)
  }

  // ---------- first rule: values that the neighbours rule out ----------

  /** The counting loop over the cells around a cell. */
  method CountAround(done: Done, around: seq<nat>) returns (vmin: nat, vmax: nat)
    requires done.Valid() && IdsOk(around, done.count)
    ensures vmin == Low(done.cells, around) && vmax == vmin + |Unknown(done.cells, around)|
  {
    vmin, vmax := 0, 0;
    assert around[..0] == [];
    for k := 0 to |around|
      invariant vmin == Low(done.cells, around[..k]) && vmax == vmin + |Unknown(done.cells, around[..k])|
    {
      assert around[..k + 1][..k] == around[..k];
      var nid := around[k];
      if done.AlreadyDone(nid) {
        if done.cells[nid][0] != EMPTY {
          vmin := vmin + 1;
          vmax := vmax + 1;
        }
      } else {
        vmax := vmax + 1;
      }
    }
    assert around[..|around|] == around;
  }

  /** Around a cell, every solution fills between `vmin` and `vmax` neighbours. */
  lemma Between(cells: Cells, i: nat, links: Links, tiles: seq<nat>)
    requires LinksOk(links) && |tiles| == 8 && |links| == |cells| && i < |cells|
    ensures forall a :: Candidate(a, cells, links, tiles) ==>
              Low(cells, links[i]) <= Filled(a, links[i]) <= Low(cells, links[i]) + |Unknown(cells, links[i])|
  {
    forall a | Candidate(a, cells, links, tiles)
      ensures Low(cells, links[i]) <= Filled(a, links[i]) <= Low(cells, links[i]) + |Unknown(cells, links[i])|
    {
      FilledSplits(a, cells, links[i]);
    }
  }

  /** The values that do not fit between the bounds go. */
  method PruneCell(pos: Pos, i: nat, vmin: nat, vmax: nat) returns (changed: bool)
    requires pos.Valid() && i < pos.done.count
    requires forall a :: Candidate(a, pos.done.cells, pos.links, pos.tiles) ==> vmin <= Filled(a, pos.links[i]) <= vmax
    modifies pos.done
    ensures Led(pos, old(pos.done.cells), changed)
    ensures pos.done.cells == old(pos.done.cells)[i := Pruned(old(pos.done.cells[i]), vmin, vmax, 7)]
    ensures !changed ==> pos.done.cells == old(pos.done.cells)
  {
    ghost var start := pos.done.cells;
    KeepsSame(start, pos.links, pos.tiles);
    hide Keeps, Candidate, CellOk, Without;
    changed := false;
    for num := 0 to 7
      invariant Led(pos, start, changed)
      invariant pos.done.cells == start[i := Pruned(start[i], vmin, vmax, num)] &&
                (!changed ==> pos.done.cells == start)
    {
      if num < vmin || num > vmax {
        ghost var before := pos.done.cells;
        StillCandidates(before, start, pos.links, pos.tiles, changed);
        NotThere(before, i, num, pos.links, pos.tiles, vmin, vmax);
        RemoveKeeps(before, i, num, pos.links, pos.tiles);
        var removed := pos.done.Remove(i, num);
        KeepsTwice(pos.done.cells, before, start, pos.links, pos.tiles, changed, removed);
        if removed {
          changed := true;
        }
      }
    }
  }

  lemma NotThere(cells: Cells, i: nat, num: nat, links: Links, tiles: seq<nat>, vmin: nat, vmax: nat)
    requires LinksOk(links) && |tiles| == 8 && |links| == |cells| && i < |cells| && num < 7 && !(vmin <= num <= vmax)
    requires forall a :: Candidate(a, cells, links, tiles) ==> vmin <= Filled(a, links[i]) <= vmax
    ensures forall a :: Candidate(a, cells, links, tiles) ==> a[i] != num
  {}

  method PruneFree(pos: Pos, free: seq<nat>) returns (changed: bool)
    requires pos.Valid() && IdsOk(free, pos.done.count)
    modifies pos.done
    ensures Led(pos, old(pos.done.cells), changed)
    ensures pos.done.cells == FreePruned(old(pos.done.cells), pos.links, free) &&
            (!changed ==> pos.done.cells == old(pos.done.cells))
  {
    ghost var start := pos.done.cells;
    KeepsSame(start, pos.links, pos.tiles);
    hide Keeps, Candidate, CellsOk, Shrunk, OnePruned;
    changed := false;
    for k := 0 to |free|
      invariant Led(pos, start, changed)
      invariant pos.done.cells == FreePruned(start, pos.links, free[..k]) && (!changed ==> pos.done.cells == start)
    {
      assert free[..k + 1][..k] == free[..k];
      ghost var before := pos.done.cells;
      var c := PruneOne(pos, free[k]);
      KeepsTwice(pos.done.cells, before, start, pos.links, pos.tiles, changed, c);
      if c {
        changed := true;
      }
    }
    assert free[..|free|] == free;
  }

  /** One turn of its loop. */
  method PruneOne(pos: Pos, i: nat) returns (changed: bool)
    requires pos.Valid() && i < pos.done.count
    modifies pos.done
    ensures Led(pos, old(pos.done.cells), changed)
    ensures pos.done.cells == OnePruned(old(pos.done.cells), pos.links, i) &&
            (!changed ==> pos.done.cells == old(pos.done.cells))
  {
    KeepsSame(pos.done.cells, pos.links, pos.tiles);
    hide Keeps, Candidate, CellOk, Shrunk;
    changed := false;
    if !pos.done.AlreadyDone(i) {
      var vmin, vmax := CountAround(pos.done, pos.links[i]);
      Between(pos.done.cells, i, pos.links, pos.tiles);
      changed := PruneCell(pos, i, vmin, vmax);
    }
  }

  // ---------- second rule: tiles that are used up, or that fit nowhere else ----------

  /** How many of each tile are not fixed yet. */
  method CountLeft(pos: Pos) returns (left: array<int>)
    requires pos.Valid()
    ensures fresh(left) && left.Length == 8
    ensures forall v: nat :: v < 8 ==> left[v] == pos.tiles[v] - CountFixed(pos.done.cells, v)
  {
    var cells := pos.done.cells;
    left := new int[8](v requires 0 <= v < 8 => pos.tiles[v]);
    assert cells[..0] == [];
    for i := 0 to pos.done.count
      invariant forall v: nat :: v < 8 ==> left[v] == pos.tiles[v] - CountFixed(cells[..i], v)
    {
      assert cells[..i + 1][..i] == cells[..i];
      var cell := cells[i];
      if |cell| == 1 {
        assert CellOk(cell);
        left[cell[0]] := left[cell[0]] - 1;
      }
    }
    assert cells[..pos.done.count] == cells;
  }

  /** A used-up tile is in no unfixed cell, even if the count was taken some changes ago. */
  lemma UsedUp(now: Cells, was: Cells, v: nat, links: Links, tiles: seq<nat>)
    requires LinksOk(links) && |tiles| == 8 && v < 8 && CellsOk(now) && Narrower(now, was) &&
             CountFixed(was, v) == tiles[v]
    ensures forall a, j :: Candidate(a, now, links, tiles) && 0 <= j < |now| && !Fixed(now[j]) ==> a[j] != v
  {
    forall a, j | Candidate(a, now, links, tiles) && 0 <= j < |now| && !Fixed(now[j])
      ensures a[j] != v
    {
      FitsWider(a, now, was);
      UsesFixed(a, was, v);
      if a[j] == v && FixedTo(was[j], v) {
        OnlyValue(now[j], v);
        assert false;
      }
    }
  }

  lemma OnlyValue(c: seq<nat>, v: nat)
    requires CellOk(c) && v in c && forall w :: w in c ==> w == v
    ensures Fixed(c)
  {
    assert c[0] in c && c[|c| - 1] in c;
  }

  method CountPossible(cells: Cells, v: nat) returns (n: nat)
    ensures n == Possible(cells, v)
  {
    n := 0;
    assert cells[..0] == [];
    for i := 0 to |cells|
      invariant n == Possible(cells[..i], v)
    {
      assert cells[..i + 1][..i] == cells[..i];
      n := n + if v in cells[i] then 1 else 0;
    }
    assert cells[..|cells|] == cells;
  }

  /** Every solution has `v` wherever `cells` allow it. */
  ghost predicate Needed(now: Cells, cells: Cells, v: nat, links: Links, tiles: seq<nat>)
    requires LinksOk(links) && |tiles| == 8 && |now| == |cells|
  {
    forall a, j :: Candidate(a, now, links, tiles) && 0 <= j < |cells| && v in cells[j] ==> a[j] == v
  }

  lemma AllNeeded(cells: Cells, v: nat, links: Links, tiles: seq<nat>)
    requires LinksOk(links) && |tiles| == 8 && v < 8 && tiles[v] == Possible(cells, v)
    ensures Needed(cells, cells, v, links, tiles)
  {
    forall a, j | Candidate(a, cells, links, tiles) && 0 <= j < |cells| && v in cells[j]
      ensures a[j] == v
    {
      UsesPossible(a, cells, v);
    }
  }

  lemma StillNeeded(now: Cells, mid: Cells, cells: Cells, v: nat, links: Links, tiles: seq<nat>, changed: bool)
    requires LinksOk(links) && |tiles| == 8 && |mid| == |cells| && Needed(mid, cells, v, links, tiles) &&
             Keeps(now, mid, links, tiles, changed)
    ensures Needed(now, cells, v, links, tiles)
  {
    StillCandidates(now, mid, links, tiles, changed);
    hide Candidate, Size;
  }

  /** Puts a tile in each cell that can still hold it. */
  method PlaceEverywhere(pos: Pos, v: nat) returns (changed: bool)
    requires pos.Valid() && Needed(pos.done.cells, pos.done.cells, v, pos.links, pos.tiles)
    modifies pos.done
    ensures Led(pos, old(pos.done.cells), changed)
    ensures pos.done.cells == Placed(old(pos.done.cells), v, pos.done.count) &&
            (!changed ==> pos.done.cells == old(pos.done.cells))
  {
    ghost var start := pos.done.cells;
    KeepsSame(start, pos.links, pos.tiles);
    hide Keeps, Candidate, CellsOk, Shrunk, OnePlaced;
    changed := false;
    for i := 0 to pos.done.count
      invariant Led(pos, start, changed) && Needed(pos.done.cells, start, v, pos.links, pos.tiles)
      invariant pos.done.cells == Placed(start, v, i) && (!changed ==> pos.done.cells == start)
    {
      ghost var before := pos.done.cells;
      var c := PlaceHere(pos, v, i, start);
      KeepsTwice(pos.done.cells, before, start, pos.links, pos.tiles, changed, c);
      if c {
        changed := true;
      }
    }
  }

  /** One turn of its loop. */
  method PlaceHere(pos: Pos, v: nat, i: nat, ghost start: Cells) returns (changed: bool)
    requires pos.Valid() && i < pos.done.count == |start| && pos.done.cells[i] == start[i]
    requires Needed(pos.done.cells, start, v, pos.links, pos.tiles)
    modifies pos.done
    ensures Led(pos, old(pos.done.cells), changed) && Needed(pos.done.cells, start, v, pos.links, pos.tiles)
    ensures pos.done.cells == OnePlaced(old(pos.done.cells), v, i) &&
            (!changed ==> pos.done.cells == old(pos.done.cells))
  {
    ghost var before := pos.done.cells;
    KeepsSame(before, pos.links, pos.tiles);
    hide Keeps, Candidate, CellOk, Shrunk;
    changed := false;
    var cell := pos.done.cells[i];
    if !pos.done.AlreadyDone(i) && v in cell {
      SetKeeps(before, i, v, pos.links, pos.tiles);
      pos.done.SetDone(i, v);
      StillNeeded(pos.done.cells, before, start, v, pos.links, pos.tiles, true);
      changed := true;
    }
  }

  /** The second rule for one tile; `left` was counted in the cells `counted`. */
  method PruneTile(pos: Pos, v: nat, left: int, ghost counted: Cells) returns (changed: bool)
    requires pos.Valid() && v < 8 && Narrower(pos.done.cells, counted) && left == pos.tiles[v] - CountFixed(counted, v)
    modifies pos.done
    ensures Led(pos, old(pos.done.cells), changed)
    ensures pos.done.cells == TilePruned(old(pos.done.cells), counted, pos.tiles, v) &&
            (!changed ==> pos.done.cells == old(pos.done.cells))
  {
    changed := false;
    KeepsSame(pos.done.cells, pos.links, pos.tiles);
    if pos.tiles[v] > 0 && left == 0 {
      UsedUp(pos.done.cells, counted, v, pos.links, pos.tiles);
      changed := pos.done.RemoveUnfixed(v, pos.links, pos.tiles);
    } else {
      var possible := CountPossible(pos.done.cells, v);
      if pos.tiles[v] == possible {
        AllNeeded(pos.done.cells, v, pos.links, pos.tiles);
        changed := PlaceEverywhere(pos, v);
      }
    }
  }

  method PruneTiles(pos: Pos) returns (changed: bool)
    requires pos.Valid()
    modifies pos.done
    ensures Led(pos, old(pos.done.cells), changed)
    ensures pos.done.cells == TilesPruned(old(pos.done.cells), pos.tiles, 8) &&
            (!changed ==> pos.done.cells == old(pos.done.cells))
  {
    ghost var start := pos.done.cells;
    var left := CountLeft(pos);
    KeepsSame(start, pos.links, pos.tiles);
    hide Candidate, CellOk;
    changed := false;
    for v := 0 to 8
      invariant Led(pos, start, changed)
      invariant pos.done.cells == TilesPruned(start, pos.tiles, v) && (!changed ==> pos.done.cells == start)
      invariant forall w: nat :: w < 8 ==> left[w] == pos.tiles[w] - CountFixed(start, w)
    {
      ghost var before := pos.done.cells;
      var c := PruneTile(pos, v, left[v], start);
      KeepsTwice(pos.done.cells, before, start, pos.links, pos.tiles, changed, c);
      if c {
        changed := true;
      }
    }
  }

  // ---------- third rule: what a fixed cell says about its neighbours ----------

  /** The loop over the cells around a fixed cell. */
  method LookAround(done: Done, around: seq<nat>) returns (filled: nat, unknown: seq<nat>)
    requires done.Valid() && IdsOk(around, done.count)
    ensures filled == Low(done.cells, around) && unknown == Unknown(done.cells, around)
  {
    filled, unknown := 0, [];
    var empties := 0;
    assert around[..0] == [];
    for k := 0 to |around|
      invariant filled == Low(done.cells, around[..k]) && unknown == Unknown(done.cells, around[..k])
    {
      assert around[..k + 1][..k] == around[..k];
      var nid := around[k];
      if done.AlreadyDone(nid) {
        if done.cells[nid][0] == EMPTY {
          empties := empties + 1;
        } else {
          filled := filled + 1;
        }
      } else {
        unknown := unknown + [nid];
      }
    }
    assert around[..|around|] == around;
  }

  /** In every solution the listed cells are all empty, or all filled. */
  ghost predicate AllEmpty(cells: Cells, ids: seq<nat>, links: Links, tiles: seq<nat>)
    requires LinksOk(links) && |tiles| == 8 && IdsOk(ids, |cells|)
  {
    forall a, k :: Candidate(a, cells, links, tiles) && 0 <= k < |ids| ==> a[ids[k]] == EMPTY
  }

  ghost predicate NoneEmpty(cells: Cells, ids: seq<nat>, links: Links, tiles: seq<nat>)
    requires LinksOk(links) && |tiles| == 8 && IdsOk(ids, |cells|)
  {
    forall a, k :: Candidate(a, cells, links, tiles) && 0 <= k < |ids| ==> a[ids[k]] != EMPTY
  }

  /** A fixed number that is reached leaves the others empty; one that needs them all fills them. */
  lemma FixedSays(cells: Cells, i: nat, links: Links, tiles: seq<nat>)
    requires LinksOk(links) && |tiles| == 8 && |links| == |cells| && i < |cells| && Fixed(cells[i])
    requires Unknown(cells, links[i]) != []
    ensures cells[i][0] == Low(cells, links[i]) ==> AllEmpty(cells, Unknown(cells, links[i]), links, tiles)
    ensures cells[i][0] == Low(cells, links[i]) + |Unknown(cells, links[i])| ==>
              NoneEmpty(cells, Unknown(cells, links[i]), links, tiles)
  {
    var u := Unknown(cells, links[i]);
    forall a | Candidate(a, cells, links, tiles)
      ensures cells[i][0] == Low(cells, links[i]) ==> forall k :: 0 <= k < |u| ==> a[u[k]] == EMPTY
      ensures cells[i][0] == Low(cells, links[i]) + |u| ==> forall k :: 0 <= k < |u| ==> a[u[k]] != EMPTY
    {
      assert a[i] == cells[i][0];
      FilledSplits(a, cells, links[i]);
      if cells[i][0] == Low(cells, links[i]) {
        NoneFilled(a, u);
      } else if cells[i][0] == Low(cells, links[i]) + |u| {
        AllFilled(a, u);
      }
    }
  }

  /** Empties the unknown neighbours. */
  method EmptyThem(pos: Pos, unknown: seq<nat>) returns (changed: bool)
    requires pos.Valid() && IdsOk(unknown, pos.done.count) && AllEmpty(pos.done.cells, unknown, pos.links, pos.tiles)
    requires forall k :: 0 <= k < |unknown| ==> !Fixed(pos.done.cells[unknown[k]])
    modifies pos.done
    ensures Led(pos, old(pos.done.cells), changed)
    ensures pos.done.cells == Emptied(old(pos.done.cells), unknown) &&
            (!changed ==> pos.done.cells == old(pos.done.cells))
  {
    ghost var start := pos.done.cells;
    KeepsSame(start, pos.links, pos.tiles);
    hide Candidate, CellOk, Size;
    changed := false;
    for k := 0 to |unknown|
      invariant Led(pos, start, changed) && AllEmpty(pos.done.cells, unknown, pos.links, pos.tiles)
      invariant !changed ==> pos.done.cells == start
      invariant pos.done.cells == Emptied(start, unknown[..k])
    {
      assert unknown[..k + 1][..k] == unknown[..k];
      var u := unknown[k];
      if EMPTY in pos.done.cells[u] {
        ghost var before := pos.done.cells;
        SetKeeps(before, u, EMPTY, pos.links, pos.tiles);
        pos.done.SetDone(u, EMPTY);
        StillCandidates(pos.done.cells, before, pos.links, pos.tiles, !Fixed(before[u]));
        KeepsTwice(pos.done.cells, before, start, pos.links, pos.tiles, changed, !Fixed(before[u]));
        changed := true;
      }
    }
    assert unknown[..|unknown|] == unknown;
  }

  /** Takes EMPTY from the unknown neighbours. */
  method FillThem(pos: Pos, unknown: seq<nat>) returns (changed: bool)
    requires pos.Valid() && IdsOk(unknown, pos.done.count) && NoneEmpty(pos.done.cells, unknown, pos.links, pos.tiles)
    modifies pos.done
    ensures Led(pos, old(pos.done.cells), changed)
    ensures pos.done.cells == FilledIn(old(pos.done.cells), unknown) &&
            (!changed ==> pos.done.cells == old(pos.done.cells))
  {
    ghost var start := pos.done.cells;
    KeepsSame(start, pos.links, pos.tiles);
    hide Candidate, CellOk, Size, Without;
    changed := false;
    for k := 0 to |unknown|
      invariant Led(pos, start, changed) && NoneEmpty(pos.done.cells, unknown, pos.links, pos.tiles)
      invariant pos.done.cells == FilledIn(start, unknown[..k]) && (!changed ==> pos.done.cells == start)
    {
      assert unknown[..k + 1][..k] == unknown[..k];
      ghost var before := pos.done.cells;
      RemoveKeeps(before, unknown[k], EMPTY, pos.links, pos.tiles);
      var removed := pos.done.Remove(unknown[k], EMPTY);
      StillCandidates(pos.done.cells, before, pos.links, pos.tiles, removed);
      KeepsTwice(pos.done.cells, before, start, pos.links, pos.tiles, changed, removed);
      if removed {
        changed := true;
      }
    }
    assert unknown[..|unknown|] == unknown;
  }

  /** The third rule around one cell. */
  method ForceAround(pos: Pos, i: nat) returns (changed: bool)
    requires pos.Valid() && i < pos.done.count
    modifies pos.done
    ensures Led(pos, old(pos.done.cells), changed)
    ensures pos.done.cells == ForcedAround(old(pos.done.cells), pos.links, i) &&
            (!changed ==> pos.done.cells == old(pos.done.cells))
  {
    changed := false;
    KeepsSame(pos.done.cells, pos.links, pos.tiles);
    if pos.done.AlreadyDone(i) {
      var num := pos.done.cells[i][0];
      var filled, unknown := LookAround(pos.done, pos.links[i]);
      if |unknown| > 0 {
        FixedSays(pos.done.cells, i, pos.links, pos.tiles);
        hide Keeps, Candidate, CellOk, AllEmpty, NoneEmpty;
        if num == filled {
          changed := EmptyThem(pos, unknown);
        } else if num == filled + |unknown| {
          changed := FillThem(pos, unknown);
        }
      }
    }
  }

  method ForceNeighbors(pos: Pos, filled: seq<nat>) returns (changed: bool)
    requires pos.Valid() && IdsOk(filled, pos.done.count)
    modifies pos.done
    ensures Led(pos, old(pos.done.cells), changed)
    ensures pos.done.cells == Forced(old(pos.done.cells), pos.links, filled) &&
            (!changed ==> pos.done.cells == old(pos.done.cells))
  {
    ghost var start := pos.done.cells;
    KeepsSame(start, pos.links, pos.tiles);
    hide Keeps, Candidate, CellOk;
    changed := false;
    for k := 0 to |filled|
      invariant Led(pos, start, changed)
      invariant pos.done.cells == Forced(start, pos.links, filled[..k]) && (!changed ==> pos.done.cells == start)
    {
      assert filled[..k + 1][..k] == filled[..k];
      ghost var before := pos.done.cells;
      var c := ForceAround(pos, filled[k]);
      KeepsTwice(pos.done.cells, before, start, pos.links, pos.tiles, changed, c);
      if c {
        changed := true;
      }
    }
    assert filled[..|filled|] == filled;
  }

  // ---------- a pass, and passes to a fixpoint ----------

  /** constraint_pass: no solution is lost or gained, and a pass that reports a change has made
      the domains smaller. Without a last move the whole board is looked at. */
  method ConstraintPass(pos: Pos, lastMove: int) returns (changed: bool)
    requires pos.Valid() && lastMove < pos.done.count
    modifies pos.done
    ensures Led(pos, old(pos.done.cells), changed)
    ensures pos.done.cells == Passed(old(pos.done.cells), pos.links, pos.tiles, lastMove) &&
            (changed <==> pos.done.cells != old(pos.done.cells))
  {
    ghost var start := pos.done.cells;
    hide Keeps, Candidate, CellOk;
    changed := PruneFree(pos, if lastMove < 0 then Range(pos.done.count) else pos.links[lastMove]);
    ghost var mid := pos.done.cells;
    var c := PruneTiles(pos);
    KeepsTwice(pos.done.cells, mid, start, pos.links, pos.tiles, changed, c);
    changed := changed || c;
    mid := pos.done.cells;
    c := ForceNeighbors(pos, if lastMove < 0 then Range(pos.done.count) else [lastMove]);
    KeepsTwice(pos.done.cells, mid, start, pos.links, pos.tiles, changed, c);
    changed := changed || c;
    if changed { Differs(pos.done.cells, start, pos.links, pos.tiles); }
  }

  lemma Differs(now: Cells, was: Cells, links: Links, tiles: seq<nat>)
    requires LinksOk(links) && |tiles| == 8 && Keeps(now, was, links, tiles, true)
    ensures now != was
  {}

  /** The loop that repeats passes until one changes nothing: it ends, and keeps the solutions. */
  method Propagate(pos: Pos, lastMove: int)
    requires pos.Valid() && lastMove < pos.done.count
    modifies pos.done
    ensures Led(pos, old(pos.done.cells), false)
    ensures pos.done.cells == Propagated(old(pos.done.cells), pos.links, pos.tiles, lastMove)
  {
    ghost var start := pos.done.cells;
    KeepsSame(start, pos.links, pos.tiles);
    hide Candidate, CellOk, Size, Passed;
    var changed := true;
    while changed
      invariant Led(pos, start, false)
      invariant Propagated(pos.done.cells, pos.links, pos.tiles, lastMove)
                  == Propagated(start, pos.links, pos.tiles, lastMove)
      invariant !changed ==> pos.done.cells == Propagated(start, pos.links, pos.tiles, lastMove)
      decreases Size(pos.done.cells), changed
    {
      ghost var before := pos.done.cells;
      changed := ConstraintPass(pos, lastMove);
      KeepsTwice(pos.done.cells, before, start, pos.links, pos.tiles, false, changed);
    }
  }
}
