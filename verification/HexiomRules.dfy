/** What the propagation rules of the Hexiom solver compute, as functions of the domains. */
module HexiomRules {
  import opened HexiomBoard

  ghost predicate IdsOk(ids: seq<nat>, count: nat) { forall k :: 0 <= k < |ids| ==> ids[k] < count }

  function Range(n: nat): (ids: seq<nat>)
    ensures |ids| == n && IdsOk(ids, n)
  {
    seq(n, (i: nat) => i)
  }

  // ---------- domains only get smaller ----------

  ghost predicate CellShrunk(now: seq<nat>, was: seq<nat>) {
    (forall v :: v in now ==> v in was) && (now == was || |now| < |was|)
  }

  ghost predicate Shrunk(now: Cells, was: Cells) { Narrower(now, was) && (now == was || Size(now) < Size(was)) }

  lemma ShrunkTwice(now: Cells, mid: Cells, was: Cells)
    requires Shrunk(now, mid) && Shrunk(mid, was)
    ensures Shrunk(now, was)
  {
    hide Size;
  }

  lemma ShrunkCell(cells: Cells, i: nat, c: seq<nat>)
    requires i < |cells| && CellShrunk(c, cells[i])
    ensures Shrunk(cells[i := c], cells)
  {
    SizeUpdate(cells, i, c);
    hide Size;
    if c == cells[i] { assert cells[i := c] == cells; }
  }

  lemma {:induction false} WithoutShrinks(c: seq<nat>, v: nat)
    ensures CellShrunk(Without(c, v), c)
  {
    if c != [] {
      WithoutShrinks(c[1..], v);
      assert c == [c[0]] + c[1..];
    }
  }

  lemma OnlyOne(c: seq<nat>, v: nat)
    requires v in c
    ensures CellShrunk([v], c)
  {
    if |c| == 1 { assert c == [v]; }
  }

  // ---------- first rule ----------

  /** A cell without the numbers below `n` outside the bounds. */
  ghost function Pruned(c: seq<nat>, vmin: nat, vmax: nat, n: nat): (r: seq<nat>)
    ensures CellShrunk(r, c)
  {
    if n == 0 then c
    else
      var p := Pruned(c, vmin, vmax, n - 1);
      WithoutShrinks(p, n - 1);
      if n - 1 < vmin || n - 1 > vmax then Without(p, n - 1) else p
  }

  ghost function OnePruned(cells: Cells, links: Links, i: nat): (r: Cells)
    requires LinksOk(links) && |links| == |cells| && i < |cells|
    ensures Shrunk(r, cells)
  {
    if Fixed(cells[i]) then cells
    else
      var low := Low(cells, links[i]);
      var c := Pruned(cells[i], low, low + |Unknown(cells, links[i])|, 7);
      ShrunkCell(cells, i, c);
      cells[i := c]
  }

  ghost function FreePruned(cells: Cells, links: Links, ids: seq<nat>): (r: Cells)
    requires LinksOk(links) && |links| == |cells| && IdsOk(ids, |cells|)
    ensures Shrunk(r, cells)
  {
    if ids == [] then cells
    else
      var p := FreePruned(cells, links, ids[..|ids| - 1]);
      ShrunkTwice(OnePruned(p, links, ids[|ids| - 1]), p, cells);
      OnePruned(p, links, ids[|ids| - 1])
  }

  // ---------- second rule ----------

  ghost function OneUnfixed(cells: Cells, v: nat, i: nat): (r: Cells)
    requires i < |cells|
    ensures Shrunk(r, cells)
  {
    if Fixed(cells[i]) then cells
    else
      WithoutShrinks(cells[i], v);
      ShrunkCell(cells, i, Without(cells[i], v));
      cells[i := Without(cells[i], v)]
  }

  /** The first `n` cells without `v`, but for the fixed ones. */
  ghost function Unfixed(cells: Cells, v: nat, n: nat): (r: Cells)
    requires n <= |cells|
    ensures Shrunk(r, cells)
  {
    if n == 0 then cells
    else
      var p := Unfixed(cells, v, n - 1);
      ShrunkTwice(OneUnfixed(p, v, n - 1), p, cells);
      OneUnfixed(p, v, n - 1)
  }

  lemma {:induction false} UnfixedIs(cells: Cells, v: nat, n: nat)
    requires n <= |cells|
    ensures forall i :: 0 <= i < |cells| ==>
              Unfixed(cells, v, n)[i] == if i >= n || Fixed(cells[i]) then cells[i] else Without(cells[i], v)
  {
    if n > 0 { UnfixedIs(cells, v, n - 1); }
    hide Without;
  }

  ghost function OnePlaced(cells: Cells, v: nat, i: nat): (r: Cells)
    requires i < |cells|
    ensures Shrunk(r, cells)
  {
    if Fixed(cells[i]) || v !in cells[i] then cells
    else
      OnlyOne(cells[i], v);
      ShrunkCell(cells, i, [v]);
      cells[i := [v]]
  }

  /** `v` alone in those of the first `n` cells that can hold it. */
  ghost function Placed(cells: Cells, v: nat, n: nat): (r: Cells)
    requires n <= |cells|
    ensures Shrunk(r, cells) && forall i :: n <= i < |cells| ==> r[i] == cells[i]
  {
    if n == 0 then cells
    else
      var p := Placed(cells, v, n - 1);
      ShrunkTwice(OnePlaced(p, v, n - 1), p, cells);
      OnePlaced(p, v, n - 1)
  }

  /** One tile; the fixed ones were counted in `counted`. */
  ghost function TilePruned(cells: Cells, counted: Cells, tiles: seq<nat>, v: nat): (r: Cells)
    requires v < |tiles|
    ensures Shrunk(r, cells)
  {
    if tiles[v] > 0 && tiles[v] == CountFixed(counted, v) then Unfixed(cells, v, |cells|)
    else if tiles[v] == Possible(cells, v) then Placed(cells, v, |cells|)
    else cells
  }

  ghost function TilesPruned(cells: Cells, tiles: seq<nat>, n: nat): (r: Cells)
    requires n <= |tiles|
    ensures Shrunk(r, cells)
  {
    if n == 0 then cells
    else
      var p := TilesPruned(cells, tiles, n - 1);
      ShrunkTwice(TilePruned(p, cells, tiles, n - 1), p, cells);
      TilePruned(p, cells, tiles, n - 1)
  }

  // ---------- third rule ----------

  ghost function Emptied(cells: Cells, ids: seq<nat>): (r: Cells)
    requires IdsOk(ids, |cells|)
    ensures Shrunk(r, cells)
  {
    if ids == [] then cells
    else
      var p, u := Emptied(cells, ids[..|ids| - 1]), ids[|ids| - 1];
      if EMPTY !in p[u] then p
      else
        OnlyOne(p[u], EMPTY);
        ShrunkCell(p, u, [EMPTY]);
        ShrunkTwice(p[u := [EMPTY]], p, cells);
        p[u := [EMPTY]]
  }

  ghost function FilledIn(cells: Cells, ids: seq<nat>): (r: Cells)
    requires IdsOk(ids, |cells|)
    ensures Shrunk(r, cells)
  {
    if ids == [] then cells
    else
      var p, u := FilledIn(cells, ids[..|ids| - 1]), ids[|ids| - 1];
      WithoutShrinks(p[u], EMPTY);
      ShrunkCell(p, u, Without(p[u], EMPTY));
      ShrunkTwice(p[u := Without(p[u], EMPTY)], p, cells);
      p[u := Without(p[u], EMPTY)]
  }

  ghost function ForcedAround(cells: Cells, links: Links, i: nat): (r: Cells)
    requires LinksOk(links) && |links| == |cells| && i < |cells|
    ensures Shrunk(r, cells)
  {
    var u := Unknown(cells, links[i]);
    if !Fixed(cells[i]) || u == [] then cells
    else if cells[i][0] == Low(cells, links[i]) then Emptied(cells, u)
    else if cells[i][0] == Low(cells, links[i]) + |u| then FilledIn(cells, u)
    else cells
  }

  ghost function Forced(cells: Cells, links: Links, ids: seq<nat>): (r: Cells)
    requires LinksOk(links) && |links| == |cells| && IdsOk(ids, |cells|)
    ensures Shrunk(r, cells)
  {
    if ids == [] then cells
    else
      var p := Forced(cells, links, ids[..|ids| - 1]);
      ShrunkTwice(ForcedAround(p, links, ids[|ids| - 1]), p, cells);
      ForcedAround(p, links, ids[|ids| - 1])
  }

  // ---------- passes ----------

  /** What one pass leaves; without a last move it looks at the whole board. */
  ghost function Passed(cells: Cells, links: Links, tiles: seq<nat>, lastMove: int): (r: Cells)
    requires LinksOk(links) && |links| == |cells| && |tiles| == 8 && lastMove < |cells|
    ensures Shrunk(r, cells)
  {
    var a := FreePruned(cells, links, if lastMove < 0 then Range(|cells|) else links[lastMove]);
    var b := TilesPruned(a, tiles, 8);
    var c := Forced(b, links, if lastMove < 0 then Range(|cells|) else [lastMove]);
    ShrunkTwice(b, a, cells);
    ShrunkTwice(c, b, cells);
    c
  }

  /** What is left when a pass changes nothing any more. */
  ghost function Propagated(cells: Cells, links: Links, tiles: seq<nat>, lastMove: int): (r: Cells)
    requires LinksOk(links) && |links| == |cells| && |tiles| == 8 && lastMove < |cells|
    ensures Shrunk(r, cells)
    decreases Size(cells)
  {
    var p := Passed(cells, links, tiles, lastMove);
    if p == cells then cells
    else
      ShrunkTwice(Propagated(p, links, tiles, lastMove), p, cells);
      Propagated(p, links, tiles, lastMove)
  }

  // ---------- a board that propagation empties ----------

  lemma {:induction false} PruningGoesOn(cells: Cells, links: Links, ids: seq<nat>, k: nat)
    requires LinksOk(links) && |links| == |cells| && IdsOk(ids, |cells|) && k <= |ids|
    ensures Shrunk(FreePruned(cells, links, ids), FreePruned(cells, links, ids[..k]))
    decreases |ids|
  {
    if k < |ids| {
      var n := |ids| - 1;
      PruningGoesOn(cells, links, ids[..n], k);
      assert ids[..n][..k] == ids[..k];
      var p := FreePruned(cells, links, ids[..n]);
      hide Shrunk, OnePruned;
      ShrunkTwice(OnePruned(p, links, ids[n]), p, FreePruned(cells, links, ids[..k]));
    } else {
      assert ids[..k] == ids;
      assert Narrower(FreePruned(cells, links, ids), FreePruned(cells, links, ids));
    }
  }

  // ---------- a cell without values ----------

  /** Every fixed cell is as it was. */
  ghost predicate FixedStay(now: Cells, was: Cells) {
    |now| == |was| && forall i :: 0 <= i < |was| && Fixed(was[i]) ==> now[i] == was[i]
  }

  /** While fixed cells stay, the bounds of a cell only come closer. */
  lemma {:induction false} BoundsTighten(now: Cells, was: Cells, ids: seq<nat>)
    requires FixedStay(now, was) && IdsOk(ids, |was|)
    ensures Low(now, ids) >= Low(was, ids)
    ensures Low(now, ids) + |Unknown(now, ids)| <= Low(was, ids) + |Unknown(was, ids)|
  {
    if ids != [] { BoundsTighten(now, was, ids[..|ids| - 1]); }
  }

  /** The first rule, going through the board, changes no fixed cell and none it has not come to. */
  lemma {:induction false} PrunedSoFar(cells: Cells, links: Links, n: nat)
    requires LinksOk(links) && |links| == |cells| && n <= |cells|
    ensures FixedStay(FreePruned(cells, links, Range(n)), cells)
    ensures forall i :: n <= i < |cells| ==> FreePruned(cells, links, Range(n))[i] == cells[i]
  {
    if n > 0 {
      PrunedSoFar(cells, links, n - 1);
      assert Range(n)[..n - 1] == Range(n - 1);
      hide Pruned, Low, Unknown;
    }
  }

  /** All values of the cell are numbers the bounds exclude. */
  ghost predicate OutOfBounds(c: seq<nat>, vmin: nat, vmax: nat) {
    forall v :: v in c ==> v < 7 && (v < vmin || v > vmax)
  }

  lemma {:induction false} PrunedOf(c: seq<nat>, vmin: nat, vmax: nat, n: nat)
    requires CellOk(c)
    ensures forall v :: v in Pruned(c, vmin, vmax, n) <==> v in c && (v < n ==> vmin <= v <= vmax)
    ensures CellOk(Pruned(c, vmin, vmax, n))
  {
    if n > 0 {
      PrunedOf(c, vmin, vmax, n - 1);
      WithoutValues(Pruned(c, vmin, vmax, n - 1), n - 1);
    }
  }

  lemma NothingLeft(c: seq<nat>, vmin: nat, vmax: nat)
    requires CellOk(c) && OutOfBounds(c, vmin, vmax)
    ensures Pruned(c, vmin, vmax, 7) == []
  {
    PrunedOf(c, vmin, vmax, 7);
    var r := Pruned(c, vmin, vmax, 7);
    var v := if |r| > 0 then r[0] else 0;
    assert v in r ==> v in c;
  }

  /** An open cell whose values all lie outside the bounds its neighbours set is emptied by the first
      rule, and stays empty. */
  lemma EmptiedAtOnce(cells: Cells, links: Links, tiles: seq<nat>, i: nat)
    requires LinksOk(links) && |links| == |cells| && |tiles| == 8 && CellsOk(cells) && i < |cells|
    requires !Fixed(cells[i])
    requires OutOfBounds(cells[i], Low(cells, links[i]), Low(cells, links[i]) + |Unknown(cells, links[i])|)
    ensures Propagated(cells, links, tiles, -1)[i] == []
  {
    var ids := Range(|cells|);
    RangePrefix(|cells|, i + 1);
    CellEmptied(cells, links, i);
    PruningGoesOn(cells, links, ids, i + 1);
    var p := Passed(cells, links, tiles, -1);
    hide FreePruned, TilesPruned, Forced, Size, Shrunk, Range, Low, Unknown;
    StaysEmpty(FreePruned(cells, links, ids), FreePruned(cells, links, ids[..i + 1]), i);
    StaysEmpty(TilesPruned(FreePruned(cells, links, ids), tiles, 8), FreePruned(cells, links, ids), i);
    StaysEmpty(p, TilesPruned(FreePruned(cells, links, ids), tiles, 8), i);
    if p != cells { StaysEmpty(Propagated(p, links, tiles, -1), p, i); }
  }

  lemma RangePrefix(n: nat, k: nat)
    requires k <= n
    ensures Range(n)[..k] == Range(k)
  {}

  lemma CellEmptied(cells: Cells, links: Links, i: nat)
    requires LinksOk(links) && |links| == |cells| && CellsOk(cells) && i < |cells| && !Fixed(cells[i])
    requires OutOfBounds(cells[i], Low(cells, links[i]), Low(cells, links[i]) + |Unknown(cells, links[i])|)
    ensures FreePruned(cells, links, Range(i + 1))[i] == []
  {
    hide Pruned, Low, Unknown, FreePruned, OnePruned, Range, CellOk, OutOfBounds, Shrunk;
    var was := FreePruned(cells, links, Range(i));
    PrunedSoFar(cells, links, i);
    BoundsTighten(was, cells, links[i]);
    StillOutside(cells[i], Low(cells, links[i]), Low(cells, links[i]) + |Unknown(cells, links[i])|,
                 Low(was, links[i]), Low(was, links[i]) + |Unknown(was, links[i])|);
    OneEmptied(was, links, i);
    LastPruned(cells, links, i);
  }

  lemma StillOutside(c: seq<nat>, vmin: nat, vmax: nat, low: nat, high: nat)
    requires OutOfBounds(c, vmin, vmax) && vmin <= low && high <= vmax
    ensures OutOfBounds(c, low, high)
  {}

  lemma OneEmptied(was: Cells, links: Links, i: nat)
    requires LinksOk(links) && |links| == |was| && i < |was| && !Fixed(was[i]) && CellOk(was[i])
    requires OutOfBounds(was[i], Low(was, links[i]), Low(was, links[i]) + |Unknown(was, links[i])|)
    ensures OnePruned(was, links, i)[i] == []
  {
    NothingLeft(was[i], Low(was, links[i]), Low(was, links[i]) + |Unknown(was, links[i])|);
    hide Pruned, Low, Unknown, CellOk, OutOfBounds, Shrunk, CellShrunk;
  }

  lemma LastPruned(cells: Cells, links: Links, i: nat)
    requires LinksOk(links) && |links| == |cells| && i < |cells|
    ensures FreePruned(cells, links, Range(i + 1)) == OnePruned(FreePruned(cells, links, Range(i)), links, i)
  {
    RangePrefix(i + 1, i);
    assert Range(i + 1)[i] == i;
    hide OnePruned, Shrunk;
  }

  lemma StaysEmpty(now: Cells, was: Cells, i: nat)
    requires Shrunk(now, was) && i < |was| && was[i] == []
    ensures i < |now| && now[i] == []
  {
    hide Size;
    var v := if |now[i]| > 0 then now[i][0] else 0;
    assert v in now[i] ==> v in was[i];
  }
}
