/** Hexiom boards: domains of cells, what a solution is, and what the neighbourhood counts say. */
module HexiomBoard {

  const EMPTY: nat := 7

  type Cells = seq<seq<nat>>
  type Links = seq<seq<nat>>

  ghost predicate CellOk(c: seq<nat>) {
    (forall k :: 0 <= k < |c| ==> c[k] < 8) && forall j, k :: 0 <= j < k < |c| ==> c[j] != c[k]
  }

  ghost predicate CellsOk(cells: Cells) { forall i :: 0 <= i < |cells| ==> CellOk(cells[i]) }

  /** Every cell has at most six neighbours. */
  ghost predicate LinksOk(links: Links) {
    forall i :: 0 <= i < |links| ==> |links[i]| <= 6 && forall k :: 0 <= k < |links[i]| ==> links[i][k] < |links|
  }

  predicate Fixed(c: seq<nat>) { |c| == 1 }

  predicate FixedTo(c: seq<nat>, v: nat) { c == [v] }

  // ---------- solutions ----------

  /** How many cells hold `v`. */
  function Uses(a: seq<nat>, v: nat): nat {
    if a == [] then 0 else Uses(a[..|a| - 1], v) + if a[|a| - 1] == v then 1 else 0
  }

  /** How many of the listed cells are not empty. */
  function Filled(a: seq<nat>, ids: seq<nat>): (n: nat)
    requires forall k :: 0 <= k < |ids| ==> ids[k] < |a|
    ensures n <= |ids|
  {
    if ids == [] then 0 else Filled(a, ids[..|ids| - 1]) + if a[ids[|ids| - 1]] != EMPTY then 1 else 0
  }

  /** Each tile is used as often as there are tiles of it, and each filled cell shows how many of
      its neighbours are filled. */
  ghost predicate Solution(a: seq<nat>, links: Links, tiles: seq<nat>)
    requires LinksOk(links) && |tiles| == 8
  {
    && |a| == |links| && (forall i :: 0 <= i < |a| ==> a[i] < 8)
    && (forall v: nat :: v < 8 ==> Uses(a, v) == tiles[v])
    && (forall i :: 0 <= i < |a| && a[i] != EMPTY ==> a[i] == Filled(a, links[i]))
  }

  ghost predicate Fits(a: seq<nat>, cells: Cells) {
    |a| == |cells| && forall i :: 0 <= i < |cells| ==> a[i] in cells[i]
  }

  ghost predicate Candidate(a: seq<nat>, cells: Cells, links: Links, tiles: seq<nat>)
    requires LinksOk(links) && |tiles| == 8
  {
    Fits(a, cells) && Solution(a, links, tiles)
  }

  ghost predicate Solvable(cells: Cells, links: Links, tiles: seq<nat>)
    requires LinksOk(links) && |tiles| == 8
  {
    exists a :: Candidate(a, cells, links, tiles)
  }

  // ---------- narrowing ----------

  function Size(cells: Cells): nat {
    if cells == [] then 0 else Size(cells[..|cells| - 1]) + |cells[|cells| - 1]|
  }

  ghost predicate Narrower(now: Cells, was: Cells) {
    |now| == |was| && forall i, v :: 0 <= i < |now| && v in now[i] ==> v in was[i]
  }

  /** From `was` to `now` nothing is lost that a solution needs, and what changes gets smaller. */
  ghost predicate Keeps(now: Cells, was: Cells, links: Links, tiles: seq<nat>, changed: bool)
    requires LinksOk(links) && |tiles| == 8
  {
    && Narrower(now, was)
    && (forall a :: Candidate(a, was, links, tiles) ==> Candidate(a, now, links, tiles))
    && Size(now) <= Size(was) && (changed ==> Size(now) < Size(was))
  }

  lemma KeepsSame(cells: Cells, links: Links, tiles: seq<nat>)
    requires LinksOk(links) && |tiles| == 8
    ensures Keeps(cells, cells, links, tiles, false)
  {}

  lemma KeepsTwice(now: Cells, mid: Cells, was: Cells, links: Links, tiles: seq<nat>, c1: bool, c2: bool)
    requires LinksOk(links) && |tiles| == 8
    requires Keeps(mid, was, links, tiles, c1) && Keeps(now, mid, links, tiles, c2)
    ensures Keeps(now, was, links, tiles, c1 || c2)
  {
    hide Candidate, Size;
  }

  lemma FitsWider(a: seq<nat>, now: Cells, was: Cells)
    requires Fits(a, now) && Narrower(now, was)
    ensures Fits(a, was)
  {}

  lemma SameSolvable(now: Cells, was: Cells, links: Links, tiles: seq<nat>, changed: bool)
    requires LinksOk(links) && |tiles| == 8 && Keeps(now, was, links, tiles, changed)
    ensures Solvable(now, links, tiles) <==> Solvable(was, links, tiles)
  {
    hide Size, Solution;
    if Solvable(now, links, tiles) {
      var a :| Candidate(a, now, links, tiles);
      FitsWider(a, now, was);
      assert Candidate(a, was, links, tiles);
    }
  }

  lemma {:induction false} SizeUpdate(cells: Cells, i: nat, c: seq<nat>)
    requires i < |cells|
    ensures Size(cells[i := c]) == Size(cells) - |cells[i]| + |c|
    decreases |cells|
  {
    var k := |cells| - 1;
    if i == k {
      assert cells[i := c][..k] == cells[..k];
    } else {
      SizeUpdate(cells[..k], i, c);
      assert cells[i := c][..k] == cells[..k][i := c];
    }
  }

  /** list.remove: without the first occurrence of `v`. */
  function Without(c: seq<nat>, v: nat): (r: seq<nat>)
    ensures v !in c ==> r == c
    ensures v in c ==> |r| == |c| - 1
  {
    if c == [] then [] else if c[0] == v then c[1..] else [c[0]] + Without(c[1..], v)
  }

  lemma {:induction false} WithoutValues(c: seq<nat>, v: nat)
    requires CellOk(c)
    ensures CellOk(Without(c, v)) && forall w :: w in Without(c, v) <==> w in c && w != v
  {
    if c != [] {
      WithoutValues(c[1..], v);
      assert c == [c[0]] + c[1..];
      if c[0] == v {
        assert v !in c[1..];
      } else {
        assert c[0] !in c[1..];
        assert c[0] !in Without(c[1..], v);
      }
    }
  }

  /** A value no solution has there may go. */
  lemma RemoveKeeps(cells: Cells, i: nat, v: nat, links: Links, tiles: seq<nat>)
    requires LinksOk(links) && |tiles| == 8 && CellsOk(cells) && i < |cells|
    requires forall a :: Candidate(a, cells, links, tiles) ==> a[i] != v
    ensures Keeps(cells[i := Without(cells[i], v)], cells, links, tiles, v in cells[i])
    ensures CellsOk(cells[i := Without(cells[i], v)])
  {
    hide Solution, Size, CellOk, Without;
    WithoutValues(cells[i], v);
    SizeUpdate(cells, i, Without(cells[i], v));
  }

  /** A value every solution has there may stay alone. */
  lemma SetKeeps(cells: Cells, i: nat, v: nat, links: Links, tiles: seq<nat>)
    requires LinksOk(links) && |tiles| == 8 && CellsOk(cells) && i < |cells| && v in cells[i]
    requires forall a :: Candidate(a, cells, links, tiles) ==> a[i] == v
    ensures Keeps(cells[i := [v]], cells, links, tiles, !Fixed(cells[i]))
    ensures CellsOk(cells[i := [v]])
  {
    hide Solution, Size;
    SizeUpdate(cells, i, [v]);
  }

  // ---------- neighbourhoods ----------

  /** The neighbours that are fixed to a tile. */
  function Low(cells: Cells, ids: seq<nat>): (n: nat)
    requires forall k :: 0 <= k < |ids| ==> ids[k] < |cells|
    ensures n <= |ids|
  {
    if ids == [] then 0
    else
      var c := cells[ids[|ids| - 1]];
      Low(cells, ids[..|ids| - 1]) + if Fixed(c) && c[0] != EMPTY then 1 else 0
  }

  /** The neighbours that are not fixed. */
  function Unknown(cells: Cells, ids: seq<nat>): (u: seq<nat>)
    requires forall k :: 0 <= k < |ids| ==> ids[k] < |cells|
    ensures forall k :: 0 <= k < |u| ==> u[k] < |cells| && !Fixed(cells[u[k]])
    ensures |u| + Low(cells, ids) <= |ids|
  {
    if ids == [] then []
    else Unknown(cells, ids[..|ids| - 1]) + if Fixed(cells[ids[|ids| - 1]]) then [] else [ids[|ids| - 1]]
  }

  /** What is filled around a cell: the neighbours fixed to tiles, and some of the open ones. */
  lemma {:induction false} FilledSplits(a: seq<nat>, cells: Cells, ids: seq<nat>)
    requires Fits(a, cells) && forall k :: 0 <= k < |ids| ==> ids[k] < |cells|
    ensures Filled(a, ids) == Low(cells, ids) + Filled(a, Unknown(cells, ids))
  {
    if ids != [] {
      var k := |ids| - 1;
      FilledSplits(a, cells, ids[..k]);
      var id := ids[k];
      assert a[id] in cells[id];
      if !Fixed(cells[id]) {
        assert Unknown(cells, ids)[..|Unknown(cells, ids)| - 1] == Unknown(cells, ids[..k]);
      } else {
        assert a[id] == cells[id][0];
        assert Unknown(cells, ids) == Unknown(cells, ids[..k]);
      }
    }
  }

  lemma {:induction false} NoneFilled(a: seq<nat>, ids: seq<nat>)
    requires (forall k :: 0 <= k < |ids| ==> ids[k] < |a|) && Filled(a, ids) == 0
    ensures forall k :: 0 <= k < |ids| ==> a[ids[k]] == EMPTY
  {
    if ids != [] { NoneFilled(a, ids[..|ids| - 1]); }
  }

  lemma {:induction false} AllFilled(a: seq<nat>, ids: seq<nat>)
    requires (forall k :: 0 <= k < |ids| ==> ids[k] < |a|) && Filled(a, ids) == |ids|
    ensures forall k :: 0 <= k < |ids| ==> a[ids[k]] != EMPTY
  {
    if ids != [] { AllFilled(a, ids[..|ids| - 1]); }
  }

  // ---------- tile counts ----------

  function CountFixed(cells: Cells, v: nat): nat {
    if cells == [] then 0 else CountFixed(cells[..|cells| - 1], v) + if FixedTo(cells[|cells| - 1], v) then 1 else 0
  }

  /** How many cells can still hold `v`. */
  function Possible(cells: Cells, v: nat): nat {
    if cells == [] then 0 else Possible(cells[..|cells| - 1], v) + if v in cells[|cells| - 1] then 1 else 0
  }

  /** A solution uses `v` where it is fixed; with one more use it has used more. */
  lemma {:induction false} UsesFixed(a: seq<nat>, cells: Cells, v: nat)
    requires Fits(a, cells)
    ensures CountFixed(cells, v) <= Uses(a, v)
    ensures (exists j :: 0 <= j < |a| && a[j] == v && !FixedTo(cells[j], v)) ==> CountFixed(cells, v) < Uses(a, v)
    decreases |a|
  {
    if a != [] {
      var k := |a| - 1;
      UsesFixed(a[..k], cells[..k], v);
      assert a[k] in cells[k];
      if j :| 0 <= j < |a| && a[j] == v && !FixedTo(cells[j], v) {
        if j < k {
          assert a[..k][j] == v && !FixedTo(cells[..k][j], v);
        }
      }
    }
  }

  /** A solution uses `v` only where it is possible; when those are all, it uses `v` there. */
  lemma {:induction false} UsesPossible(a: seq<nat>, cells: Cells, v: nat)
    requires Fits(a, cells)
    ensures Uses(a, v) <= Possible(cells, v)
    ensures Uses(a, v) == Possible(cells, v) ==> forall j :: 0 <= j < |a| && v in cells[j] ==> a[j] == v
    decreases |a|
  {
    if a != [] {
      var k := |a| - 1;
      UsesPossible(a[..k], cells[..k], v);
      assert a[k] in cells[k];
      if Uses(a, v) == Possible(cells, v) {
        assert Uses(a[..k], v) == Possible(cells[..k], v);
        forall j | 0 <= j < |a| && v in cells[j]
          ensures a[j] == v
        {
          if j < k {
            assert v in cells[..k][j] && a[..k][j] == a[j];
          }
        }
      }
    }
  }
}
