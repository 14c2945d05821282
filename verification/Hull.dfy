/** The map generator's convex hull: two monotone chains over the sorted points. */
module Hull {
  import opened Basics

  datatype Point = Point(x: real, y: real)

  function Minus(a: Point, b: Point): Point { Point(a.x - b.x, a.y - b.y) }

  function Cross(u: Point, v: Point): real { u.x * v.y - u.y * v.x }

  /** Positive when `c` lies to the left of the line from `a` to `b`. */
  function Turn(a: Point, b: Point, c: Point): real { Cross(Minus(b, a), Minus(c, a)) }

  /** The order of tuples; `up` says in which direction a chain goes. */
  predicate Forward(v: Point) { v.x > 0.0 || (v.x == 0.0 && v.y > 0.0) }

  function Negated(v: Point): Point { Point(-v.x, -v.y) }

  predicate Ahead(v: Point, up: bool) { Forward(if up then v else Negated(v)) }

  predicate Before(a: Point, b: Point, up: bool) { Ahead(Minus(b, a), up) }

  // ---------- vectors that go the same way ----------

  lemma CrossRules(u: Point, v: Point, w: Point)
    ensures Cross(u, v) == -Cross(v, u) && Cross(u, u) == 0.0
    ensures Cross(Negated(u), Negated(v)) == Cross(u, v) && Cross(u, Negated(v)) == -Cross(u, v)
    ensures Cross(u, Minus(v, w)) == Cross(u, v) - Cross(u, w)
  {}

  /** The two components of (u x w) v = (u x v) w + (v x w) u. */
  lemma ThreeVectors(u: Point, v: Point, w: Point)
    ensures Cross(u, w) * v.x == Cross(u, v) * w.x + Cross(v, w) * u.x
    ensures Cross(u, w) * v.y == Cross(u, v) * w.y + Cross(v, w) * u.y
  {}

  lemma SignOfProduct(a: real, b: real)
    ensures a * b >= 0.0 && b > 0.0 ==> a >= 0.0
    ensures a * b > 0.0 && b > 0.0 ==> a > 0.0
    ensures a >= 0.0 && b >= 0.0 ==> a * b >= 0.0
    ensures a > 0.0 && b > 0.0 ==> a * b > 0.0
    ensures a == 0.0 || b == 0.0 ==> a * b == 0.0
  {}

  /** Among forward vectors, turning left is transitive. */
  lemma ForwardTurns(u: Point, v: Point, w: Point)
    requires Forward(u) && Forward(v) && Forward(w) && Cross(u, v) >= 0.0 && Cross(v, w) >= 0.0
    ensures Cross(u, w) >= 0.0
    ensures Cross(u, v) > 0.0 && Cross(v, w) > 0.0 ==> Cross(u, w) > 0.0
  {
    var p, q, r := Cross(u, v), Cross(v, w), Cross(u, w);
    ThreeVectors(u, v, w);
    SignOfProduct(p, w.x);
    SignOfProduct(q, u.x);
    SignOfProduct(r, v.x);
    SignOfProduct(u.x, v.y);
    SignOfProduct(u.x, w.y);
    SignOfProduct(w.x, v.y);
    SignOfProduct(u.y, v.x);
    if v.x == 0.0 {
      assert v.x == 0.0 && v.y > 0.0;
      assert q == -(v.y * w.x) && p == u.x * v.y;
      SignOfProduct(w.x, v.y);
      assert w.x == 0.0;
      assert r == u.x * w.y;
    }
  }

  lemma AheadTurns(u: Point, v: Point, w: Point, up: bool)
    requires Ahead(u, up) && Ahead(v, up) && Ahead(w, up) && Cross(u, v) >= 0.0 && Cross(v, w) >= 0.0
    ensures Cross(u, w) >= 0.0
    ensures Cross(u, v) > 0.0 && Cross(v, w) > 0.0 ==> Cross(u, w) > 0.0
  {
    if up {
      ForwardTurns(u, v, w);
    } else {
      CrossRules(u, v, w);
      CrossRules(v, w, u);
      CrossRules(u, w, v);
      ForwardTurns(Negated(u), Negated(v), Negated(w));
    }
    hide Cross;
  }

  predicate Less(a: Point, b: Point) { a.x < b.x || (a.x == b.x && a.y < b.y) }

  lemma BeforeIsLess(a: Point, b: Point, up: bool)
    ensures Before(a, b, up) <==> if up then Less(a, b) else Less(b, a)
  {}

  lemma BeforeTransitive(a: Point, b: Point, c: Point, up: bool)
    requires Before(a, b, up) && Before(b, c, up)
    ensures Before(a, c, up)
  {
    BeforeIsLess(a, b, up);
    BeforeIsLess(b, c, up);
    BeforeIsLess(a, c, up);
    hide Before;
  }

  lemma BeforeTotal(a: Point, b: Point, up: bool)
    ensures a == b || Before(a, b, up) || Before(b, a, up)
    ensures Before(a, b, up) ==> a != b && !Before(b, a, up)
  {
    BeforeIsLess(a, b, up);
    BeforeIsLess(b, a, up);
    hide Before;
  }

  lemma TurnRules(a: Point, b: Point, c: Point)
    ensures Turn(a, b, c) == Cross(Minus(b, a), Minus(c, b)) && Turn(a, b, b) == 0.0 && Turn(a, b, a) == 0.0
    ensures Turn(a, b, c) == -Turn(a, c, b) && Turn(a, b, c) == Turn(b, c, a)
  {}

  // ---------- a chain ----------

  ghost predicate Ascending(s: seq<Point>, up: bool) { forall i, j :: 0 <= i < j < |s| ==> Before(s[i], s[j], up) }

  ghost predicate StrictlyLeft(h: seq<Point>) { forall i :: 0 <= i < |h| - 2 ==> Turn(h[i], h[i + 1], h[i + 2]) > 0.0 }

  /** All of `s` lies on or to the left of every edge of the chain. */
  ghost predicate OnLeft(h: seq<Point>, s: seq<Point>) {
    forall i, k :: 0 <= i < |h| - 1 && 0 <= k < |s| ==> LeftOf(h, i, s[k])
  }

  ghost predicate LeftOf(h: seq<Point>, i: int, q: Point)
    requires 0 <= i < |h| - 1
  {
    Turn(h[i], h[i + 1], q) >= 0.0
  }

  /** The chain of the points so far: from the first to the last of them, turning left only. */
  ghost predicate Chain(h: seq<Point>, s: seq<Point>, up: bool) {
    && |h| > 0 && |s| > 0 && h[0] == s[0] && h[|h| - 1] == s[|s| - 1]
    && Ascending(s, up) && Ascending(h, up) && StrictlyLeft(h) && OnLeft(h, s)
    && forall i :: 0 <= i < |h| ==> h[i] in s
  }

  /** A point left of one edge is left of the edge before it. */
  lemma EdgeBefore(a: Point, b: Point, c: Point, p: Point, up: bool)
    requires Before(a, b, up) && Before(b, c, up) && Before(b, p, up) && Turn(a, b, c) > 0.0 && Turn(b, c, p) > 0.0
    ensures Turn(a, b, p) > 0.0
  {
    TurnRules(a, b, c);
    TurnRules(a, b, p);
    hide Cross;
    AheadTurns(Minus(b, a), Minus(c, b), Minus(p, b), up);
  }

  /** A point behind the chain's last is to the left of all its edges, if it is of the last. */
  lemma {:induction false} LeftOfAll(h: seq<Point>, p: Point, i: nat, up: bool)
    requires Ascending(h, up) && StrictlyLeft(h) && i < |h| - 1 && Before(h[|h| - 1], p, up)
    requires Turn(h[|h| - 2], h[|h| - 1], p) > 0.0
    ensures Turn(h[i], h[i + 1], p) > 0.0
    decreases |h| - i
  {
    hide Turn, Before;
    if i < |h| - 2 {
      LeftOfAll(h, p, i + 1, up);
      BeforeTransitive(h[i + 1], h[|h| - 1], p, up);
      EdgeBefore(h[i], h[i + 1], h[i + 2], p, up);
    }
  }

  /** Points before the corner `a` are to the left of the new edge from `a` to `p`. */
  lemma EarlierLeft(z: Point, a: Point, p: Point, q: Point, up: bool)
    requires Before(z, a, up) && Before(a, p, up) && Before(q, a, up) && Turn(z, a, p) > 0.0 && Turn(z, a, q) >= 0.0
    ensures Turn(a, p, q) >= 0.0
  {
    var u, w, s := Minus(a, z), Minus(p, a), Minus(a, q);
    TurnRules(z, a, p);
    TurnRules(z, a, q);
    assert Minus(q, a) == Negated(s);
    CrossRules(u, s, s);
    CrossRules(w, s, s);
    hide Cross;
    assert Cross(s, u) >= 0.0;
    AheadTurns(s, u, w, up);
    assert Turn(a, p, q) == Cross(w, Negated(s));
  }

  /** Points behind `a` are to the left of the new edge when its was edge to `b` was not left of `p`. */
  lemma LaterLeft(a: Point, b: Point, p: Point, q: Point, up: bool)
    requires Before(a, b, up) && Before(a, p, up) && Before(a, q, up) && Turn(a, b, p) <= 0.0 && Turn(a, b, q) >= 0.0
    ensures Turn(a, p, q) >= 0.0
  {
    var u, v, s := Minus(p, a), Minus(b, a), Minus(q, a);
    CrossRules(u, v, s);
    hide Cross;
    AheadTurns(u, v, s, up);
  }

  /** The order of a point and the points of an ascending sequence that a new point follows. */
  lemma AllBefore(s: seq<Point>, p: Point, up: bool)
    requires |s| > 0 && Ascending(s, up) && Before(s[|s| - 1], p, up)
    ensures forall k :: 0 <= k < |s| ==> Before(s[k], p, up)
    ensures Ascending(s + [p], up)
  {
    hide Before;
    forall k | 0 <= k < |s|
      ensures Before(s[k], p, up)
    {
      if k < |s| - 1 {
        BeforeTransitive(s[k], s[|s| - 1], p, up);
      }
    }
  }

  /** The new edge has every point so far on its left. */
  lemma NewEdge(was: seq<Point>, s: seq<Point>, p: Point, n: nat, k: nat, up: bool)
    requires Chain(was, s, up) && Before(s[|s| - 1], p, up) && 0 < n <= |was| && k < |s|
    requires n == 1 || Turn(was[n - 2], was[n - 1], p) > 0.0
    requires n == |was| || Turn(was[n - 1], was[n], p) <= 0.0
    ensures Turn(was[n - 1], p, s[k]) >= 0.0
  {
    var a, q := was[n - 1], s[k];
    AllBefore(s, p, up);
    AllBefore(was, p, up);
    TurnRules(a, p, q);
    BeforeTotal(q, a, up);
    BeforeTotal(s[0], q, up);
    BeforeTotal(q, s[|s| - 1], up);
    hide Turn, Before;
    if q == a {
      TurnRules(a, p, a);
    } else if Before(q, a, up) {
      if n > 1 {
        assert LeftOf(was, n - 2, q);
        EarlierLeft(was[n - 2], a, p, q, up);
      }
    } else if n < |was| {
      assert LeftOf(was, n - 1, q);
      LaterLeft(a, was[n], p, q, up);
    }
  }

  /** Dropping what does not turn left and adding the point keeps the chain. */
  lemma ChainGrows(was: seq<Point>, s: seq<Point>, p: Point, n: nat, up: bool)
    requires Chain(was, s, up) && Before(s[|s| - 1], p, up) && 0 < n <= |was|
    requires n == 1 || Turn(was[n - 2], was[n - 1], p) > 0.0
    requires n == |was| || Turn(was[n - 1], was[n], p) <= 0.0
    ensures Chain(was[..n] + [p], s + [p], up)
  {
    hide Turn, Before;
    AllBefore(s, p, up);
    AllBefore(was, p, up);
    LeftTurnsKept(was, p, n, up);
    EdgesKept(was, s, p, n, up);
    hide OnLeft, StrictlyLeft, Ascending;
    forall i | 0 <= i < n + 1
      ensures (was[..n] + [p])[i] in s + [p]
    {
      if i < n {
        assert was[i] in s;
      }
    }
  }

  lemma LeftTurnsKept(was: seq<Point>, p: Point, n: nat, up: bool)
    requires 0 < n <= |was| && Ascending(was, up) && StrictlyLeft(was) && forall k :: 0 <= k < |was| ==>
               Before(was[k], p, up)
    requires n == 1 || Turn(was[n - 2], was[n - 1], p) > 0.0
    ensures Ascending(was[..n] + [p], up) && StrictlyLeft(was[..n] + [p])
  {
    hide Turn, Before;
  }

  lemma EdgesKept(was: seq<Point>, s: seq<Point>, p: Point, n: nat, up: bool)
    requires Chain(was, s, up) && Before(s[|s| - 1], p, up) && 0 < n <= |was|
    requires n == 1 || Turn(was[n - 2], was[n - 1], p) > 0.0
    requires n == |was| || Turn(was[n - 1], was[n], p) <= 0.0
    ensures OnLeft(was[..n] + [p], s + [p])
  {
    var g, t := was[..n] + [p], s + [p];
    hide Turn, Before;
    forall i, k | 0 <= i < |g| - 1 && 0 <= k < |t|
      ensures LeftOf(g, i, t[k])
    {
      assert g[i] == was[i] && (i < n - 1 ==> g[i + 1] == was[i + 1]);
      if k < |s| {
        assert t[k] == s[k];
        OldPointLeft(was, s, p, n, i, k, up);
      } else {
        NewPointLeft(was, p, n, i, up);
      }
    }
  }

  lemma OldPointLeft(was: seq<Point>, s: seq<Point>, p: Point, n: nat, i: nat, k: nat, up: bool)
    requires Chain(was, s, up) && Before(s[|s| - 1], p, up) && 0 < n <= |was| && i < n && k < |s|
    requires n == 1 || Turn(was[n - 2], was[n - 1], p) > 0.0
    requires n == |was| || Turn(was[n - 1], was[n], p) <= 0.0
    ensures Turn(was[i], if i < n - 1 then was[i + 1] else p, s[k]) >= 0.0
  {
    hide Turn, Before;
    if i < n - 1 {
      assert LeftOf(was, i, s[k]);
    } else {
      NewEdge(was, s, p, n, k, up);
    }
  }

  lemma NewPointLeft(was: seq<Point>, p: Point, n: nat, i: nat, up: bool)
    requires 0 < n <= |was| && i < n && Ascending(was, up) && StrictlyLeft(was) && Before(was[|was| - 1], p, up)
    requires n == 1 || Turn(was[n - 2], was[n - 1], p) > 0.0
    ensures Turn(was[i], if i < n - 1 then was[i + 1] else p, p) >= 0.0
  {
    TurnRules(was[i], p, p);
    AllBefore(was, p, up);
    hide Turn, Before;
    if i < n - 1 {
      LeftOfAll(was[..n], p, i, up);
    }
  }

  /** half: the chain of an ascending, or descending, sequence. */
  method Half(s: seq<Point>, ghost up: bool) returns (hull: seq<Point>)
    requires Ascending(s, up)
    ensures s == [] ==> hull == []
    ensures s != [] ==> Chain(hull, s, up)
  {
    hide Turn, Before;
    hull := [];
    for k := 0 to |s|
      invariant k == 0 ==> hull == []
      invariant k > 0 ==> Chain(hull, s[..k], up)
    {
      var p := s[k];
      assert s[..k + 1] == s[..k] + [p];
      if k == 0 {
        FirstPoint(p, up);
      }
      hull := AddPoint(hull, p, s[..k], up);
    }
    assert s[..|s|] == s;
  }

  lemma FirstPoint(p: Point, up: bool)
    ensures Chain([p], [p], up)
  {}

  /** One point of `half`: pops what would not turn left, then appends. */
  method AddPoint(was: seq<Point>, p: Point, ghost s: seq<Point>, ghost up: bool) returns (hull: seq<Point>)
    requires if was == [] then s == [] else Chain(was, s, up) && |s| > 0 && Before(s[|s| - 1], p, up)
    ensures Chain(hull, s + [p], up)
  {
    hide Turn, Before, Chain;
    hull := was;
    while |hull| >= 2 && Turn(hull[|hull| - 2], hull[|hull| - 1], p) <= 0.0
      invariant |hull| <= |was| && hull == was[..|hull|] && (was != [] ==> |hull| > 0)
      invariant |hull| < |was| ==> Turn(was[|hull| - 1], was[|hull|], p) <= 0.0
    {
      hull := hull[..|hull| - 1];
    }
    ghost var n := |hull|;
    hull := hull + [p];
    if was == [] {
      FirstPoint(p, up);
      assert hull == [p] && s + [p] == [p];
    } else {
      ChainGrows(was, s, p, n, up);
    }
  }

  // ---------- closing the polygon ----------

  ghost predicate AllCollinear(s: seq<Point>) {
    forall i, j, k :: 0 <= i < |s| && 0 <= j < |s| && 0 <= k < |s| ==> Flat(s[i], s[j], s[k])
  }

  ghost predicate Flat(a: Point, b: Point, c: Point) { Turn(a, b, c) == 0.0 }

  /** Two opposite directions on one line: what is left of both lies on the line. */
  lemma BetweenOpposites(d: Point, w: Point, v: Point)
    requires Forward(d) && Forward(Negated(w)) && Cross(d, w) == 0.0 && Cross(d, v) >= 0.0 && Cross(w, v) >= 0.0
    ensures Cross(d, v) == 0.0
  {
    var c, e := Cross(d, v), Cross(w, v);
    ThreeVectors(d, w, v);
    SignOfProduct(Cross(d, w), v.x);
    SignOfProduct(Cross(d, w), v.y);
    SignOfProduct(e, d.x);
    SignOfProduct(e, d.y);
    SignOfProduct(c, -w.x);
    SignOfProduct(c, -w.y);
    assert c * w.x == e * d.x && c * w.y == e * d.y;
    assert c * (-w.x) == -(c * w.x) && c * (-w.y) == -(c * w.y);
    hide Cross;
  }

  lemma BetweenOppositeWays(d: Point, w: Point, v: Point, up: bool)
    requires Ahead(d, up) && Ahead(w, !up) && Cross(d, w) == 0.0 && Cross(d, v) >= 0.0 && Cross(w, v) >= 0.0
    ensures Cross(d, v) == 0.0
  {
    if up {
      BetweenOpposites(d, w, v);
    } else {
      CrossRules(d, w, v);
      CrossRules(d, v, v);
      CrossRules(w, v, v);
      assert Negated(Negated(w)) == w;
      hide Cross;
      BetweenOpposites(Negated(d), Negated(w), Negated(v));
    }
  }

  /** Three points on a line. */
  lemma OnOneLine(o: Point, d: Point, a: Point, b: Point, c: Point)
    requires (d.x != 0.0 || d.y != 0.0)
    requires Cross(d, Minus(a, o)) == 0.0 && Cross(d, Minus(b, o)) == 0.0 && Cross(d, Minus(c, o)) == 0.0
    ensures Flat(a, b, c)
  {
    var v, t := Minus(b, a), Minus(c, a);
    assert v == Minus(Minus(b, o), Minus(a, o)) && t == Minus(Minus(c, o), Minus(a, o));
    CrossRules(d, Minus(b, o), Minus(a, o));
    CrossRules(d, Minus(c, o), Minus(a, o));
    CrossRules(d, v, t);
    ThreeVectors(v, d, t);
    SignOfProduct(Cross(v, d), t.x);
    SignOfProduct(Cross(v, d), t.y);
    SignOfProduct(Cross(d, t), v.x);
    SignOfProduct(Cross(d, t), v.y);
    hide Cross;
    ZeroFactor(Cross(v, t), d.x);
    ZeroFactor(Cross(v, t), d.y);
  }

  lemma ZeroFactor(a: real, b: real)
    requires a * b == 0.0
    ensures a == 0.0 || b == 0.0
  {}

  /** Where one chain ends and the other begins, the polygon turns strictly left. */
  lemma Corner(l: Point, b: Point, u: Point, s: seq<Point>, up: bool)
    requires Before(l, b, up) && Before(b, u, !up) && u in s && !AllCollinear(s)
    requires forall k :: 0 <= k < |s| ==> Turn(l, b, s[k]) >= 0.0 && Turn(b, u, s[k]) >= 0.0
    ensures Turn(l, b, u) > 0.0
  {
    if Turn(l, b, u) == 0.0 {
      var d, w := Minus(b, l), Minus(u, b);
      TurnRules(l, b, u);
      forall k | 0 <= k < |s|
        ensures Cross(d, Minus(s[k], b)) == 0.0
      {
        TurnRules(l, b, s[k]);
        hide Cross;
        BetweenOppositeWays(d, w, Minus(s[k], b), up);
      }
      assert d.x != 0.0 || d.y != 0.0;
      forall i, j, k | 0 <= i < |s| && 0 <= j < |s| && 0 <= k < |s|
        ensures Flat(s[i], s[j], s[k])
      {
        OnOneLine(b, d, s[i], s[j], s[k]);
      }
    }
  }

  function Next(h: seq<Point>, i: nat): nat { if i + 1 < |h| then i + 1 else 0 }

  /** A strictly convex polygon without repeated corners, counter-clockwise, with all of `s` on or to
      the left of each edge. */
  ghost predicate ConvexHullOf(h: seq<Point>, s: seq<Point>) {
    && |h| >= 3 && (forall i :: 0 <= i < |h| ==> h[i] in s)
    && (forall i, j :: 0 <= i < j < |h| ==> h[i] != h[j])
    && (forall i: nat, k :: i < |h| && 0 <= k < |s| ==> EdgeLeft(h, i, s[k]))
    && (forall i: nat :: i < |h| ==> CornerLeft(h, i))
  }

  ghost predicate EdgeLeft(h: seq<Point>, i: nat, q: Point)
    requires i < |h|
  {
    Turn(h[i], h[Next(h, i)], q) >= 0.0
  }

  ghost predicate CornerLeft(h: seq<Point>, i: nat)
    requires i < |h|
  {
    Turn(h[i], h[Next(h, i)], h[Next(h, Next(h, i))]) > 0.0
  }

  /** The two chains of the same points, forth and back. */
  ghost predicate Chains(lower: seq<Point>, upper: seq<Point>, s: seq<Point>, t: seq<Point>) {
    && Chain(lower, s, true) && Chain(upper, t, false) && |lower| >= 2 && |upper| >= 2
    && lower[0] == upper[|upper| - 1] && upper[0] == lower[|lower| - 1]
    && (forall q :: q in s <==> q in t) && !AllCollinear(s)
  }

  function Closed(lower: seq<Point>, upper: seq<Point>): seq<Point>
    requires |lower| > 0 && |upper| > 0
  {
    lower[..|lower| - 1] + upper[..|upper| - 1]
  }

  lemma LowerEdge(lower: seq<Point>, s: seq<Point>, i: nat, q: Point, up: bool)
    requires Chain(lower, s, up) && i < |lower| - 1 && q in s
    ensures Turn(lower[i], lower[i + 1], q) >= 0.0
  {
    hide Turn;
    var k :| 0 <= k < |s| && s[k] == q;
    assert LeftOf(lower, i, s[k]);
  }

  /** The edges of the closed polygon are the edges of the chains. */
  lemma ClosedEdge(lower: seq<Point>, upper: seq<Point>, i: nat)
    requires |lower| >= 2 && |upper| >= 2 && lower[0] == upper[|upper| - 1] && upper[0] == lower[|lower| - 1]
    requires i < |Closed(lower, upper)|
    ensures var h, a := Closed(lower, upper), |lower| - 1;
            if i < a then h[i] == lower[i] && h[Next(h, i)] == lower[i + 1]
            else h[i] == upper[i - a] && h[Next(h, i)] == upper[i - a + 1]
  {}

  lemma ClosedEdgesLeft(lower: seq<Point>, upper: seq<Point>, s: seq<Point>, t: seq<Point>, i: nat, k: nat)
    requires Chains(lower, upper, s, t) && i < |Closed(lower, upper)| && k < |s|
    ensures EdgeLeft(Closed(lower, upper), i, s[k])
  {
    ClosedEdge(lower, upper, i);
    assert s[k] in t;
    hide *;
    if i < |lower| - 1 {
      LowerEdge(lower, s, i, s[k], true);
    } else {
      LowerEdge(upper, t, i - (|lower| - 1), s[k], false);
    }
  }

  /** The corner where the chain `c` ends and the chain `e` begins. */
  lemma ChainCorner(c: seq<Point>, e: seq<Point>, s: seq<Point>, t: seq<Point>, up: bool)
    requires Chain(c, s, up) && Chain(e, t, !up) && |c| >= 2 && |e| >= 2 && e[0] == c[|c| - 1]
    requires (forall q :: q in s <==> q in t) && !AllCollinear(s)
    ensures Turn(c[|c| - 2], e[0], e[1]) > 0.0
  {
    var l, b, u := c[|c| - 2], e[0], e[1];
    ChainEnds(c, s, up);
    ChainEnds(e, t, !up);
    hide Turn, Before, AllCollinear, Chain;
    forall k | 0 <= k < |s|
      ensures Turn(l, b, s[k]) >= 0.0 && Turn(b, u, s[k]) >= 0.0
    {
      assert s[k] in t;
      LowerEdge(c, s, |c| - 2, s[k], up);
      LowerEdge(e, t, 0, s[k], !up);
    }
    Corner(l, b, u, s, up);
  }

  lemma ChainEnds(c: seq<Point>, s: seq<Point>, up: bool)
    requires Chain(c, s, up) && |c| >= 2
    ensures Before(c[|c| - 2], c[|c| - 1], up) && Before(c[0], c[1], up) && c[1] in s
  {
    hide Turn, Before;
  }

  lemma SameCollinear(s: seq<Point>, t: seq<Point>)
    requires (forall q :: q in s <==> q in t) && AllCollinear(t)
    ensures AllCollinear(s)
  {
    hide Flat;
    forall i, j, k | 0 <= i < |s| && 0 <= j < |s| && 0 <= k < |s|
      ensures Flat(s[i], s[j], s[k])
    {
      assert s[i] in t && s[j] in t && s[k] in t;
      var a :| 0 <= a < |t| && t[a] == s[i];
      var b :| 0 <= b < |t| && t[b] == s[j];
      var c :| 0 <= c < |t| && t[c] == s[k];
      assert Flat(t[a], t[b], t[c]);
    }
  }

  /** The corners of the closed polygon: those of the two chains, and the two between them. */
  lemma ClosedCorner(lower: seq<Point>, upper: seq<Point>, i: nat)
    requires |lower| >= 2 && |upper| >= 2 && lower[0] == upper[|upper| - 1] && upper[0] == lower[|lower| - 1]
    requires i < |lower| + |upper| - 2
    ensures i < |Closed(lower, upper)| && Next(Closed(lower, upper), i) < |Closed(lower, upper)|
    ensures var h, a, n := Closed(lower, upper), |lower| - 1, |lower| + |upper| - 2;
            var third := h[Next(h, Next(h, i))];
            if i < a - 1 then h[i] == lower[i] && h[Next(h, i)] == lower[i + 1] && third == lower[i + 2]
            else if i == a - 1 then h[i] == lower[a - 1] && h[Next(h, i)] == upper[0] && third == upper[1]
            else if i < n - 1 then h[i] == upper[i - a] && h[Next(h, i)] == upper[i - a + 1] &&
                    third == upper[i - a + 2]
            else h[i] == upper[|upper| - 2] && h[Next(h, i)] == lower[0] && third == lower[1]
  {
    var h := Closed(lower, upper);
    ClosedEdge(lower, upper, i);
    ClosedEdge(lower, upper, Next(h, i));
    hide Closed;
  }

  lemma ClosedCorners(lower: seq<Point>, upper: seq<Point>, s: seq<Point>, t: seq<Point>, i: nat)
    requires Chains(lower, upper, s, t) && i < |Closed(lower, upper)|
    ensures CornerLeft(Closed(lower, upper), i)
  {
    var a := |lower| - 1;
    ClosedCorner(lower, upper, i);
    if AllCollinear(t) {
      SameCollinear(s, t);
    }
    ChainCorner(lower, upper, s, t, true);
    ChainCorner(upper, lower, t, s, false);
    assert StrictlyLeft(lower) && StrictlyLeft(upper);
    hide Turn, Chain, AllCollinear, Next;
    if i < a - 1 {
      assert Turn(lower[i], lower[i + 1], lower[i + 2]) > 0.0;
    } else if a <= i < |lower| + |upper| - 3 {
      assert Turn(upper[i - a], upper[i - a + 1], upper[i - a + 2]) > 0.0;
    }
  }

  /** A corner of one chain, turning strictly left, is no inner point of the other chain: the other
      one would leave it backwards along the same line. */
  lemma NoTurningBack(e: Point, d: Point, w: Point, up: bool)
    requires Ahead(d, up) && Ahead(w, !up) && Cross(e, d) > 0.0 && Cross(e, w) >= 0.0
    ensures Cross(d, w) != 0.0
  {
    if Cross(d, w) == 0.0 {
      ThreeVectors(e, d, w);
      SameWay(Cross(e, w), Cross(e, d), d, w, up);
    }
  }

  lemma SameWay(a: real, b: real, d: Point, w: Point, up: bool)
    requires a >= 0.0 && b > 0.0 && a * d.x == b * w.x && a * d.y == b * w.y
    ensures !(Ahead(d, up) && Ahead(w, !up))
  {
    SignOfProduct(a, d.x);
    SignOfProduct(a, -d.x);
    SignOfProduct(a, d.y);
    SignOfProduct(a, -d.y);
    SignOfProduct(w.x, b);
    SignOfProduct(-w.x, b);
    SignOfProduct(w.y, b);
    SignOfProduct(-w.y, b);
    Opposites(a, d.x);
    Opposites(a, d.y);
    Opposites(w.x, b);
    Opposites(w.y, b);
  }

  lemma Opposites(a: real, b: real)
    ensures a * -b == -(a * b) && -a * b == -(a * b)
  {}

  lemma InnerApart(lower: seq<Point>, upper: seq<Point>, s: seq<Point>, t: seq<Point>, i: nat, j: nat)
    requires Chains(lower, upper, s, t) && 0 < i < |lower| - 1 && 0 < j < |upper| - 1
    ensures lower[i] != upper[j]
  {
    if lower[i] == upper[j] {
      var p, q, r, back := lower[i - 1], lower[i], lower[i + 1], upper[j + 1];
      ChainParts(lower, s, true, i);
      ChainParts(upper, t, false, j);
      hide *;
      OtherPoints(lower, upper, s, t, i, j);
      LowerEdge(lower, s, i - 1, back, true);
      LowerEdge(lower, s, i, back, true);
      LowerEdge(upper, t, j, r, false);
      TurnRules(p, q, r);
      TurnRules(p, q, back);
      TurnRules(q, r, back);
      TurnRules(q, back, r);
      Corners(p, q, r, back);
    }
  }

  lemma OtherPoints(lower: seq<Point>, upper: seq<Point>, s: seq<Point>, t: seq<Point>, i: nat, j: nat)
    requires Chains(lower, upper, s, t) && i + 1 < |lower| && j + 1 < |upper|
    ensures lower[i + 1] in t && upper[j + 1] in s
  {
    hide Turn, AllCollinear, StrictlyLeft;
    assert lower[i + 1] in s && upper[j + 1] in t;
  }

  lemma ChainParts(c: seq<Point>, s: seq<Point>, up: bool, i: nat)
    requires Chain(c, s, up) && 0 < i < |c| - 1
    ensures Turn(c[i - 1], c[i], c[i + 1]) > 0.0 && Before(c[i], c[i + 1], up)
  {
    hide Turn, Before;
    var k := i - 1;
    assert Turn(c[k], c[k + 1], c[k + 2]) > 0.0;
  }

  lemma Corners(p: Point, q: Point, r: Point, back: Point)
    requires Turn(p, q, r) > 0.0 && Turn(p, q, back) >= 0.0 && Turn(q, r, back) >= 0.0 && Turn(q, back, r) >= 0.0
    requires Before(q, r, true)
    ensures !Before(q, back, false)
  {
    var e, d, w := Minus(q, p), Minus(r, q), Minus(back, q);
    assert Minus(r, p) == Point(e.x + d.x, e.y + d.y) && Minus(back, p) == Point(e.x + w.x, e.y + w.y);
    CrossPlus(e, d);
    CrossPlus(e, w);
    CrossRules(d, w, e);
    hide Cross;
    if Ahead(w, false) {
      NoTurningBack(e, d, w, true);
    }
  }

  lemma CrossPlus(e: Point, d: Point)
    ensures Cross(e, Point(e.x + d.x, e.y + d.y)) == Cross(e, d)
  {}

  /** No corner of the closed polygon comes twice. */
  lemma ClosedDistinct(lower: seq<Point>, upper: seq<Point>, s: seq<Point>, t: seq<Point>)
    requires Chains(lower, upper, s, t)
    ensures var h := Closed(lower, upper); forall i, j :: 0 <= i < j < |h| ==> h[i] != h[j]
  {
    var h, a := Closed(lower, upper), |lower| - 1;
    ChainDistinct(lower, s, true);
    ChainDistinct(upper, t, false);
    hide Chain, AllCollinear;
    forall i, j | 0 <= i < j < |h|
      ensures h[i] != h[j]
    {
      if i < a <= j && i > 0 && j > a {
        InnerApart(lower, upper, s, t, i, j - a);
      }
    }
  }

  lemma ChainDistinct(c: seq<Point>, s: seq<Point>, up: bool)
    requires Chain(c, s, up)
    ensures forall i, j :: 0 <= i < j < |c| ==> c[i] != c[j]
  {
    forall i, j | 0 <= i < j < |c|
      ensures c[i] != c[j]
    {
      assert Before(c[i], c[j], up);
    }
  }

  lemma ClosedIsHull(lower: seq<Point>, upper: seq<Point>, s: seq<Point>, t: seq<Point>)
    requires Chains(lower, upper, s, t)
    ensures ConvexHullOf(Closed(lower, upper), s)
  {
    var h := Closed(lower, upper);
    forall i: nat, k | i < |h| && 0 <= k < |s|
      ensures EdgeLeft(h, i, s[k])
    {
      ClosedEdgesLeft(lower, upper, s, t, i, k);
    }
    forall i: nat | i < |h|
      ensures CornerLeft(h, i)
    {
      ClosedCorners(lower, upper, s, t, i);
    }
    ClosedDistinct(lower, upper, s, t);
    assert CornerLeft(h, 0);
    if |h| == 2 {
      TurnRules(h[0], h[1], h[0]);
    }
    hide Turn, EdgeLeft, CornerLeft, AllCollinear;
    assert forall i :: 0 <= i < |lower| ==> lower[i] in s;
    assert forall i :: 0 <= i < |upper| ==> upper[i] in t;
  }

  // ---------- the whole function ----------

  ghost predicate SameElements(s: seq<Point>, t: seq<Point>) { forall q :: q in s <==> q in t }

  /** sorted(set(points)). */
  method SortedSet(points: seq<Point>) returns (s: seq<Point>)
    ensures Ascending(s, true) && SameElements(s, points)
  {
    s := [];
    hide Before;
    for k := 0 to |points|
      invariant Ascending(s, true) && SameElements(s, points[..k])
    {
      assert points[..k + 1] == points[..k] + [points[k]];
      s := Insert(s, points[k]);
    }
    assert points[..|points|] == points;
  }

  /** A new element at its place; one that is there already stays single. */
  method Insert(s: seq<Point>, p: Point) returns (r: seq<Point>)
    requires Ascending(s, true)
    ensures Ascending(r, true) && SameElements(r, s + [p])
  {
    hide Before;
    var i := 0;
    while i < |s| && Before(s[i], p, true)
      invariant 0 <= i <= |s| && forall k :: 0 <= k < i ==> Before(s[k], p, true)
    {
      i := i + 1;
    }
    if i < |s| && s[i] == p {
      return s;
    }
    r := s[..i] + [p] + s[i..];
    forall k | i <= k < |s|
      ensures Before(p, s[k], true)
    {
      BeforeTotal(s[i], p, true);
      if k > i {
        BeforeTransitive(p, s[i], s[k], true);
      }
    }
    InsertedAscends(s, p, i);
    assert s == s[..i] + s[i..];
  }

  lemma InsertedAscends(s: seq<Point>, p: Point, i: nat)
    requires Ascending(s, true) && i <= |s|
    requires (forall k :: 0 <= k < i ==> Before(s[k], p, true)) && forall k :: i <= k < |s| ==> Before(p, s[k], true)
    ensures Ascending(s[..i] + [p] + s[i..], true)
  {
    hide Before;
    var r := s[..i] + [p] + s[i..];
    forall j, k | 0 <= j < k < |r|
      ensures Before(r[j], r[k], true)
    {
      assert r[j] == if j < i then s[j] else if j == i then p else s[j - 1];
      assert r[k] == if k < i then s[k] else if k == i then p else s[k - 1];
    }
  }

  lemma ReversedChains(s: seq<Point>)
    requires Ascending(s, true)
    ensures Ascending(Reversed(s), false) && SameElements(Reversed(s), s)
  {
    var t := Reversed(s);
    forall i, j | 0 <= i < j < |t|
      ensures Before(t[i], t[j], false)
    {
      BeforeIsLess(t[i], t[j], false);
      BeforeIsLess(t[j], t[i], true);
      assert Before(s[|s| - 1 - j], s[|s| - 1 - i], true);
    }
    forall q
      ensures q in t <==> q in s
    {
      if q in s {
        var k :| 0 <= k < |s| && s[k] == q;
        assert t[|s| - 1 - k] == q;
      }
    }
  }

  /** A single point, or none, is collinear. */
  lemma FewAreCollinear(s: seq<Point>)
    requires |s| <= 1
    ensures AllCollinear(s)
  {
    if |s| == 1 {
      TurnRules(s[0], s[0], s[0]);
    }
  }

  lemma EndsDiffer(s: seq<Point>, lower: seq<Point>, upper: seq<Point>)
    requires |s| > 1 && Ascending(s, true) && Chain(lower, s, true) && Chain(upper, Reversed(s), false)
    ensures |lower| >= 2 && |upper| >= 2 && lower[0] == upper[|upper| - 1] && upper[0] == lower[|lower| - 1]
  {
    assert Before(s[0], s[|s| - 1], true);
    BeforeTotal(s[0], s[|s| - 1], true);
    hide Before, Turn;
  }

  ghost predicate AllSame(points: seq<Point>) {
    forall i, j :: 0 <= i < |points| && 0 <= j < |points| ==> points[i] == points[j]
  }

  /** Of points on one line: the least and the greatest in the order of tuples, if they differ. */
  ghost predicate EndsOf(h: seq<Point>, points: seq<Point>) {
    if AllSame(points) then h == []
    else |h| == 2 && h[0] in points && h[1] in points && h[0] != h[1]
         && forall q :: q in points ==> (q == h[0] || Less(h[0], q)) && (q == h[1] || Less(q, h[1]))
  }

  lemma FlatInside(s: seq<Point>, p: Point, q: Point, r: Point)
    requires AllCollinear(s) && p in s && q in s && r in s
    ensures Turn(p, q, r) == 0.0
  {
    var i :| 0 <= i < |s| && s[i] == p;
    var j :| 0 <= j < |s| && s[j] == q;
    var k :| 0 <= k < |s| && s[k] == r;
    hide Turn;
    assert Flat(s[i], s[j], s[k]);
  }

  /** A chain along a line goes straight from end to end. */
  lemma FlatChain(c: seq<Point>, s: seq<Point>, up: bool)
    requires Chain(c, s, up) && AllCollinear(s)
    ensures |c| <= 2
  {
    hide Before, Turn, AllCollinear;
    if |c| > 2 { FlatInside(s, c[0], c[1], c[2]); }
  }

  lemma FewAreSame(s: seq<Point>, points: seq<Point>)
    requires Ascending(s, true) && SameElements(s, points)
    ensures |s| <= 1 <==> AllSame(points)
  {
    if |s| > 1 {
      BeforeTotal(s[0], s[1], true);
      assert s[0] in points && s[1] in points;
      var i :| 0 <= i < |points| && points[i] == s[0];
      var j :| 0 <= j < |points| && points[j] == s[1];
      hide Before;
      assert points[i] != points[j];
    } else {
      hide Before;
      forall i, j | 0 <= i < |points| && 0 <= j < |points|
        ensures points[i] == points[j]
      {
        assert points[i] in s && points[j] in s;
      }
    }
  }

  lemma LineEnds(h: seq<Point>, s: seq<Point>, points: seq<Point>)
    requires Ascending(s, true) && SameElements(s, points) && |s| > 1 && h == [s[0], s[|s| - 1]]
    ensures EndsOf(h, points)
  {
    FewAreSame(s, points);
    BeforeIsLess(s[0], s[|s| - 1], true);
    BeforeTotal(s[0], s[|s| - 1], true);
    hide Before, Less, AllSame;
    forall q | q in points
      ensures (q == h[0] || Less(h[0], q)) && (q == h[1] || Less(q, h[1]))
    {
      assert q in s;
      var k :| 0 <= k < |s| && s[k] == q;
      BeforeIsLess(s[0], q, true);
      BeforeIsLess(q, s[|s| - 1], true);
    }
    assert s[0] in s && s[|s| - 1] in s;
  }

  /** What the two chains make of points on one line. */
  lemma ClosedOnLine(h: seq<Point>, lower: seq<Point>, upper: seq<Point>, s: seq<Point>, points: seq<Point>)
    requires Ascending(s, true) && SameElements(s, points) && AllCollinear(points) && |lower| > 0 && |upper| > 0
    requires Chain(lower, s, true) && Chain(upper, Reversed(s), false)
    requires h == lower[..|lower| - 1] + upper[..|upper| - 1]
    ensures EndsOf(h, points)
  {
    hide Turn, Before, AllCollinear, Less;
    SameCollinear(s, points);
    ReversedChains(s);
    SameCollinear(Reversed(s), s);
    FlatChain(lower, s, true);
    FlatChain(upper, Reversed(s), false);
    FewAreSame(s, points);
    if |s| > 1 {
      EndsDiffer(s, lower, upper);
      assert h == [s[0], s[|s| - 1]];
      LineEnds(h, s, points);
    } else {
      SingleChain(lower, s, true);
      SingleChain(upper, Reversed(s), false);
    }
  }

  lemma SingleChain(c: seq<Point>, s: seq<Point>, up: bool)
    requires Chain(c, s, up) && |s| == 1
    ensures |c| == 1
  {
    if |c| > 1 { BeforeTotal(c[0], c[|c| - 1], up); }
    hide Turn;
  }

  /** convex_hull: of points not all on a line, the strictly convex polygon around them; of others the
      two ends, or nothing when there are fewer than two points. */
  method ConvexHull(points: seq<Point>) returns (h: seq<Point>)
    ensures !AllCollinear(points) ==> ConvexHullOf(h, points)
    ensures AllCollinear(points) ==> EndsOf(h, points)
  {
    hide Turn, Before, Chain, Flat;
    var s := SortedSet(points);
    var lower := Half(s, true);
    ReversedChains(s);
    var upper := Half(Reversed(s), false);
    h := (if |lower| > 0 then lower[..|lower| - 1] else []) + (if |upper| > 0 then upper[..|upper| - 1] else []);
    HullIs(h, lower, upper, s, points);
  }

  lemma HullIs(h: seq<Point>, lower: seq<Point>, upper: seq<Point>, s: seq<Point>, points: seq<Point>)
    requires Ascending(s, true) && SameElements(s, points)
    requires s == [] ==> lower == [] && upper == []
    requires s != [] ==> Chain(lower, s, true) && Chain(upper, Reversed(s), false)
    requires h == (if |lower| > 0 then lower[..|lower| - 1] else [])
               + (if |upper| > 0 then upper[..|upper| - 1] else [])
    ensures !AllCollinear(points) ==> ConvexHullOf(h, points)
    ensures AllCollinear(points) ==> EndsOf(h, points)
  {
    hide Turn, Before, Flat;
    ReversedChains(s);
    if !AllCollinear(points) {
      if AllCollinear(s) {
        SameCollinear(points, s);
      }
      if |s| <= 1 {
        FewAreCollinear(s);
      }
      EndsDiffer(s, lower, upper);
      ClosedIsHull(lower, upper, s, Reversed(s));
      HullOfSame(h, s, points);
    } else if s == [] {
      FewAreSame(s, points);
    } else {
      ClosedOnLine(h, lower, upper, s, points);
    }
  }

  lemma HullOfSame(h: seq<Point>, s: seq<Point>, t: seq<Point>)
    requires ConvexHullOf(h, s) && SameElements(s, t)
    ensures ConvexHullOf(h, t)
  {
    hide EdgeLeft, CornerLeft;
    forall i: nat, k | i < |h| && 0 <= k < |t|
      ensures EdgeLeft(h, i, t[k])
    {
      assert t[k] in s;
      var j :| 0 <= j < |s| && s[j] == t[k];
      assert EdgeLeft(h, i, s[j]);
    }
  }
}
