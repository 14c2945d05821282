/** The map generator's line simplification, over an explicit worklist. */
module Simplify {

  datatype Point = Point(x: real, z: real)

  function Dot(ux: real, uz: real, dx: real, dz: real): real { ux * dx + uz * dz }

  /** How far `u` is from `t` times `d`, squared. */
  function Off(ux: real, uz: real, dx: real, dz: real, t: real): real {
    (ux - t * dx) * (ux - t * dx) + (uz - t * dz) * (uz - t * dz)
  }

  /** distance_to_segment, squared. */
  function SquaredDistance(p: Point, a: Point, b: Point): real {
    var ux, uz, dx, dz := p.x - a.x, p.z - a.z, b.x - a.x, b.z - a.z;
    var length := Dot(dx, dz, dx, dz);
    Off(ux, uz, dx, dz, if length == 0.0 then 0.0 else Clamp(Dot(ux, uz, dx, dz) / length))
  }

  function Clamp(t: real): real { if t < 0.0 then 0.0 else if t > 1.0 then 1.0 else t }

  /** The point of the segment from `a` to `b` at `t`. */
  function Along(a: Point, b: Point, t: real): Point { Point(a.x + t * (b.x - a.x), a.z + t * (b.z - a.z)) }

  /** The square of the distance between two points. */
  function Apart(p: Point, q: Point): real { (p.x - q.x) * (p.x - q.x) + (p.z - q.z) * (p.z - q.z) }

  /** Some point of the segment is within the distance of `p`, by squares. */
  ghost predicate Near(p: Point, a: Point, b: Point, limit: real) {
    exists t :: 0.0 <= t <= 1.0 && Apart(p, Along(a, b, t)) <= limit
  }

  /** Where the perpendicular from `u` meets the line along `d`. */
  function Foot(ux: real, uz: real, dx: real, dz: real): real {
    if Dot(dx, dz, dx, dz) == 0.0 then 0.0 else Dot(ux, uz, dx, dz) / Dot(dx, dz, dx, dz)
  }

  function Times(a: real, b: real): real { a * b }

  lemma ProductSign(a: real, b: real)
    requires (a > 0.0 && b > 0.0) || (a < 0.0 && b < 0.0)
    ensures Times(a, b) > 0.0
  {}

  lemma SquareSign(x: real)
    ensures Times(x, x) >= 0.0 && (x != 0.0 ==> Times(x, x) > 0.0)
  {
    assert x == 0.0 ==> Times(x, x) == 0.0;
    hide *;
    if x != 0.0 { ProductSign(x, x); }
  }

  lemma LengthIs(dx: real, dz: real)
    ensures Dot(dx, dz, dx, dz) == Times(dx, dx) + Times(dz, dz)
  {}

  lemma LengthSign(dx: real, dz: real)
    ensures Dot(dx, dz, dx, dz) >= 0.0 && (dx != 0.0 || dz != 0.0 ==> Dot(dx, dz, dx, dz) > 0.0)
  {
    SquareSign(dx);
    SquareSign(dz);
    LengthIs(dx, dz);
    hide *;
  }

  lemma FootIs(ux: real, uz: real, dx: real, dz: real)
    ensures Dot(dx, dz, dx, dz) >= 0.0
    ensures Foot(ux, uz, dx, dz) * Dot(dx, dz, dx, dz) == Dot(ux, uz, dx, dz)
  {
    LengthSign(dx, dz);
    if dx == 0.0 && dz == 0.0 {
      NoLength(ux, uz);
    } else {
      hide Dot;
      Quotient(Dot(ux, uz, dx, dz), Dot(dx, dz, dx, dz));
    }
  }

  lemma NoLength(ux: real, uz: real)
    ensures Dot(ux, uz, 0.0, 0.0) == 0.0 && Dot(0.0, 0.0, 0.0, 0.0) == 0.0 && Foot(ux, uz, 0.0, 0.0) == 0.0
  {}

  lemma Quotient(m: real, l: real)
    requires l != 0.0
    ensures (m / l) * l == m
  {}

  lemma OffParts(ux: real, uz: real, dx: real, dz: real, t: real)
    ensures Off(ux, uz, dx, dz, t)
         == Dot(ux, uz, ux, uz) - 2.0 * (t * Dot(ux, uz, dx, dz)) + t * t * Dot(dx, dz, dx, dz)
  {}

  /** Nearer to the foot is nearer to the point. */
  lemma NearerFoot(ux: real, uz: real, dx: real, dz: real, c: real, t: real)
    requires var f := Foot(ux, uz, dx, dz); (c - f) * (c - f) <= (t - f) * (t - f)
    ensures Off(ux, uz, dx, dz, c) <= Off(ux, uz, dx, dz, t)
  {
    FootIs(ux, uz, dx, dz);
    OffParts(ux, uz, dx, dz, c);
    OffParts(ux, uz, dx, dz, t);
    var f, l, m := Foot(ux, uz, dx, dz), Dot(dx, dz, dx, dz), Dot(ux, uz, dx, dz);
    hide *;
    Parabola(l, m, f, c);
    Parabola(l, m, f, t);
    Ordered(l, (c - f) * (c - f), (t - f) * (t - f));
  }

  lemma Parabola(l: real, m: real, f: real, t: real)
    requires f * l == m
    ensures l * ((t - f) * (t - f)) == t * t * l - 2.0 * (t * m) + f * f * l
  {}

  lemma SameSquares(p: Point, a: Point, b: Point, t: real)
    ensures Apart(p, Along(a, b, t)) == Off(p.x - a.x, p.z - a.z, b.x - a.x, b.z - a.z, t)
  {}

  lemma DistanceIs(p: Point, a: Point, b: Point)
    ensures var ux, uz, dx, dz := p.x - a.x, p.z - a.z, b.x - a.x, b.z - a.z;
            SquaredDistance(p, a, b) == Off(ux, uz, dx, dz, Clamp(Foot(ux, uz, dx, dz)))
  {
    hide Dot, Off;
  }

  /** The squared distance to a segment is that to the nearest of its points. */
  lemma NearestOfSegment(p: Point, a: Point, b: Point)
    ensures forall t :: 0.0 <= t <= 1.0 ==> SquaredDistance(p, a, b) <= Apart(p, Along(a, b, t))
    ensures exists t :: 0.0 <= t <= 1.0 && SquaredDistance(p, a, b) == Apart(p, Along(a, b, t))
  {
    hide *;
    var ux, uz, dx, dz := p.x - a.x, p.z - a.z, b.x - a.x, b.z - a.z;
    var f := Foot(ux, uz, dx, dz);
    var c := Clamp(f);
    ClampNearest(f, 0.0);
    DistanceIs(p, a, b);
    SameSquares(p, a, b, c);
    forall t | 0.0 <= t <= 1.0
      ensures SquaredDistance(p, a, b) <= Apart(p, Along(a, b, t))
    {
      ClampNearest(f, t);
      NearerFoot(ux, uz, dx, dz, c, t);
      SameSquares(p, a, b, t);
    }
  }

  lemma ClampNearest(f: real, t: real)
    requires 0.0 <= t <= 1.0
    ensures 0.0 <= Clamp(f) <= 1.0 && (Clamp(f) - f) * (Clamp(f) - f) <= (t - f) * (t - f)
  {}

  lemma Ordered(l: real, x: real, y: real)
    requires l >= 0.0 && x <= y
    ensures l * x <= l * y
  {}

  /** Near means near by the squared distance. */
  lemma NearByDistance(p: Point, a: Point, b: Point, limit: real)
    ensures Near(p, a, b, limit) <==> SquaredDistance(p, a, b) <= limit
  {
    NearestOfSegment(p, a, b);
    hide SquaredDistance, Along, Apart;
  }

  /** The points whose flag is set, in order. */
  function Selected(points: seq<Point>, keep: seq<bool>): seq<Point>
    requires |points| == |keep|
  {
    if points == [] then [] else Selected(points[..|points| - 1], keep[..|keep| - 1]) + if keep[|keep| - 1]
        then [points[|points| - 1]] else []
  }

  type Span = (nat, nat)

  ghost predicate NoneKept(keep: seq<bool>, a: nat, b: nat) { forall k :: a < k < b && k < |keep| ==> !keep[k] }

  /** Two kept indices with none between them. */
  ghost predicate Adjacent(keep: seq<bool>, a: nat, b: nat) {
    a < b < |keep| && keep[a] && keep[b] && NoneKept(keep, a, b)
  }

  /** All points between the two are near the segment that joins them. */
  ghost predicate Settled(points: seq<Point>, a: nat, b: nat, limit: real) {
    a < b < |points| && forall k :: a < k < b ==> Near(points[k], points[a], points[b], limit)
  }

  // ---------- which points stay ----------

  function Height(points: seq<Point>, a: nat, b: nat, k: nat): real
    requires a < |points| && b < |points| && k < |points|
  {
    SquaredDistance(points[k], points[a], points[b])
  }

  /** `i` is the first of the points between `a` and `b` that are farthest from their segment, and off it. */
  ghost predicate Peak(points: seq<Point>, a: nat, b: nat, i: nat) {
    && a < i < b < |points| && Height(points, a, b, i) > 0.0
    && (forall k: nat :: a < k < i ==> Height(points, a, b, k) < Height(points, a, b, i))
    && forall k: nat :: i < k < b ==> Height(points, a, b, k) <= Height(points, a, b, i)
  }

  lemma OnePeak(points: seq<Point>, a: nat, b: nat, i: nat, j: nat)
    requires Peak(points, a, b, i) && Peak(points, a, b, j)
    ensures i == j
  {
    hide Height;
  }

  /** The points that stay between two that do: the farthest one, if it is too far, and what stays on
      either side of it. */
  ghost function Staying(points: seq<Point>, a: nat, b: nat, limit: real): set<nat>
    decreases b - a
  {
    if i: nat :| Peak(points, a, b, i) && Height(points, a, b, i) > limit
      then Staying(points, a, i, limit) + {i} + Staying(points, i, b, limit)
    else {}
  }

  /** The search for the point farthest from a segment. */
  method Farthest(points: seq<Point>, first: nat, last: nat) returns (farthest: real, index: int)
    requires first < last < |points|
    ensures farthest >= 0.0 && forall k: nat :: first < k < last ==> Height(points, first, last, k) <= farthest
    ensures index >= 0 ==> Peak(points, first, last, index) && Height(points, first, last, index) == farthest
    ensures index < 0 ==> farthest == 0.0
  {
    hide Height, SquaredDistance;
    farthest, index := 0.0, -1;
    for k := first + 1 to last
      invariant farthest >= 0.0 && (index < 0 ==> farthest == 0.0)
      invariant forall i: nat :: first < i < k ==> Height(points, first, last, i) <= farthest
      invariant index >= 0 ==> first < index < k && Height(points, first, last, index) == farthest > 0.0
      invariant forall i: nat :: first < i < index ==> Height(points, first, last, i) < farthest
    {
      var d := SquaredDistance(points[k], points[first], points[last]);
      HeightIs(points, first, last, k);
      if d > farthest {
        farthest, index := d, k;
      }
    }
  }

  lemma HeightIs(points: seq<Point>, a: nat, b: nat, k: nat)
    requires a < |points| && b < |points| && k < |points|
    ensures Height(points, a, b, k) == SquaredDistance(points[k], points[a], points[b])
  {}

  /** What the search found decides what stays. */
  lemma StayingBy(points: seq<Point>, first: nat, last: nat, farthest: real, index: int, limit: real)
    requires first < last < |points| && limit >= 0.0
    requires forall k: nat :: first < k < last ==> Height(points, first, last, k) <= farthest
    requires index >= 0 ==> Peak(points, first, last, index) && Height(points, first, last, index) == farthest
    requires index < 0 ==> farthest == 0.0
    ensures index >= 0 && farthest > limit ==>
              Staying(points, first, last, limit)
                == Staying(points, first, index, limit) + {index as nat} + Staying(points, index, last, limit)
    ensures index < 0 || farthest <= limit ==> Staying(points, first, last, limit) == {}
  {
    hide Height;
    if i: nat :| Peak(points, first, last, i) && Height(points, first, last, i) > limit {
      if index >= 0 {
        forall j: nat | Peak(points, first, last, j)
          ensures j == index
        {
          OnePeak(points, first, last, j, index);
        }
      }
    }
  }

  // ---------- the worklist ----------

  /** What is still to be found in the spans of the worklist. */
  ghost function Pending(points: seq<Point>, stack: seq<Span>, limit: real): set<nat> {
    if stack == [] then {}
    else
      Pending(points, stack[..|stack| - 1], limit)
      + Staying(points, stack[|stack| - 1].0, stack[|stack| - 1].1, limit)
  }

  function KeptOf(keep: seq<bool>): set<nat> { set k: nat | k < |keep| && keep[k] }

  /** The points the result has: both ends, and what stays between them. */
  ghost function Wanted(points: seq<Point>, limit: real): set<nat>
    requires points != []
  {
    {0, |points| - 1} + Staying(points, 0, |points| - 1, limit)
  }

  lemma PendingSplit(points: seq<Point>, rest: seq<Span>, a: nat, i: nat, b: nat, limit: real)
    ensures Pending(points, rest + [(a, b)], limit) == Pending(points, rest, limit) + Staying(points, a, b, limit)
    ensures Pending(points, rest + [(a, i)] + [(i, b)], limit)
         == Pending(points, rest, limit) + Staying(points, a, i, limit) + Staying(points, i, b, limit)
  {
    hide Staying;
    assert (rest + [(a, b)])[..|rest|] == rest && (rest + [(a, i)])[..|rest|] == rest;
    assert (rest + [(a, i)] + [(i, b)])[..|rest| + 1] == rest + [(a, i)];
  }

  lemma KeptMore(keep: seq<bool>, i: nat)
    requires i < |keep|
    ensures KeptOf(keep[i := true]) == KeptOf(keep) + {i}
  {}

  /** The worklist holds spans between adjacent kept points, each once; every other such span is
      settled. */
  ghost predicate Underway(points: seq<Point>, keep: seq<bool>, stack: seq<Span>, limit: real) {
    && |keep| == |points| >= 3 && keep[0] && keep[|keep| - 1]
    && (forall i :: 0 <= i < |stack| ==> Adjacent(keep, stack[i].0, stack[i].1))
    && (forall i, j :: 0 <= i < j < |stack| ==> stack[i] != stack[j])
    && (forall a: nat, b: nat :: Adjacent(keep, a, b) ==> (a, b) in stack || Settled(points, a, b, limit))
  }

  /** Twice the total length of the spans, less their number. */
  function Work(stack: seq<Span>): int {
    if stack == [] then 0
    else Work(stack[..|stack| - 1]) + 2 * (stack[|stack| - 1].1 as int - stack[|stack| - 1].0 as int) - 1
  }

  lemma {:induction false} WorkPositive(stack: seq<Span>)
    requires forall i :: 0 <= i < |stack| ==> stack[i].0 < stack[i].1
    ensures Work(stack) >= |stack|
  {
    if stack != [] { WorkPositive(stack[..|stack| - 1]); }
  }

  lemma WorkSplit(rest: seq<Span>, a: nat, i: nat, b: nat)
    ensures Work(rest + [(a, b)]) == Work(rest) + 2 * (b - a) - 1
    ensures Work(rest + [(a, i)] + [(i, b)]) == Work(rest) + 2 * (b - a) - 2
  {
    assert (rest + [(a, b)])[..|rest|] == rest;
    assert (rest + [(a, i)])[..|rest|] == rest;
    assert (rest + [(a, i)] + [(i, b)])[..|rest| + 1] == rest + [(a, i)];
  }

  /** A span whose farthest point is near enough leaves the worklist. */
  lemma SpanSettled(points: seq<Point>, keep: seq<bool>, rest: seq<Span>, a: nat, b: nat, limit: real)
    requires Underway(points, keep, rest + [(a, b)], limit) && Settled(points, a, b, limit)
    ensures Underway(points, keep, rest, limit)
  {
    hide Settled;
    var stack := rest + [(a, b)];
    forall i | 0 <= i < |rest|
      ensures rest[i] == stack[i]
    {}
    forall c: nat, d: nat | Adjacent(keep, c, d)
      ensures (c, d) in rest || Settled(points, c, d, limit)
    {
      assert (c, d) in stack || Settled(points, c, d, limit);
    }
  }

  /** Which pairs are adjacent once a point between two adjacent ones is kept. */
  lemma SplitNeighbors(keep: seq<bool>, a: nat, i: nat, b: nat, c: nat, d: nat)
    requires Adjacent(keep, a, b) && a < i < b && Adjacent(keep[i := true], c, d)
    ensures c == i ==> d == b
    ensures d == i ==> c == a
    ensures c != i && d != i ==> Adjacent(keep, c, d) && !(c == a && d == b)
  {
    var now := keep[i := true];
    assert now[a] && now[b] && now[i] && now[c] && now[d];
    if c != i && d != i {
      assert keep[c] && keep[d];
      forall k | c < k < d && k < |keep|
        ensures !keep[k]
      {
        assert !now[k];
      }
    } else if c == i {
      assert keep[d];
    } else {
      assert keep[c];
    }
  }

  /** A span is split at a point that is kept from now on. */
  lemma SpanSplit(points: seq<Point>, keep: seq<bool>, rest: seq<Span>, a: nat, i: nat, b: nat, limit: real)
    requires Underway(points, keep, rest + [(a, b)], limit) && a < i < b
    ensures i < |keep| && Underway(points, keep[i := true], rest + [(a, i)] + [(i, b)], limit)
  {
    hide Settled;
    var stack, now, next := rest + [(a, b)], keep[i := true], rest + [(a, i)] + [(i, b)];
    assert stack[|rest|] == (a, b) && Adjacent(keep, a, b) && !keep[i];
    forall k | 0 <= k < |next|
      ensures Adjacent(now, next[k].0, next[k].1)
    {
      if k < |rest| {
        assert next[k] == stack[k] && stack[k] != stack[|rest|];
        assert Adjacent(keep, next[k].0, next[k].1);
      }
    }
    forall j, k | 0 <= j < k < |next|
      ensures next[j] != next[k]
    {
      if j < |rest| {
        assert next[j] == stack[j] && Adjacent(keep, next[j].0, next[j].1);
        if k < |rest| {
          assert next[k] == stack[k];
        }
      }
    }
    forall c: nat, d: nat | Adjacent(now, c, d)
      ensures (c, d) in next || Settled(points, c, d, limit)
    {
      SplitNeighbors(keep, a, i, b, c, d);
      if c == i {
        assert next[|rest| + 1] == (i, b);
      } else if d == i {
        assert next[|rest|] == (a, i);
      } else {
        if (c, d) in stack {
          var k :| 0 <= k < |stack| && stack[k] == (c, d);
          assert k < |rest| && next[k] == (c, d);
        }
      }
    }
  }

  /** What the result promises: the ends are kept, and every dropped point is within the tolerance
      of the segment joining the kept points around it. */
  ghost predicate Simplified(points: seq<Point>, keep: seq<bool>, limit: real) {
    && |keep| == |points| && (points != [] ==> keep[0] && keep[|keep| - 1])
    && forall k :: 0 <= k < |points| && !keep[k] ==>
        exists a: nat, b: nat :: a < k < b && Adjacent(keep, a, b) && Settled(points, a, b, limit)
  }

  lemma {:induction false} KeptBefore(keep: seq<bool>, k: nat) returns (a: nat)
    requires 0 < k < |keep| && keep[0]
    ensures a < k && keep[a] && NoneKept(keep, a, k)
  {
    a := k - 1;
    if !keep[k - 1] {
      a := KeptBefore(keep, k - 1);
    }
  }

  lemma {:induction false} KeptAfter(keep: seq<bool>, k: nat) returns (b: nat)
    requires k < |keep| - 1 && keep[|keep| - 1]
    ensures k < b < |keep| && keep[b] && NoneKept(keep, k, b)
    decreases |keep| - k
  {
    b := k + 1;
    if !keep[k + 1] {
      b := KeptAfter(keep, k + 1);
    }
  }

  lemma NothingLeft(points: seq<Point>, keep: seq<bool>, limit: real)
    requires Underway(points, keep, [], limit)
    ensures Simplified(points, keep, limit)
  {
    hide Settled;
    forall k | 0 <= k < |points| && !keep[k]
      ensures exists a: nat, b: nat :: a < k < b && Adjacent(keep, a, b) && Settled(points, a, b, limit)
    {
      var a := KeptBefore(keep, k);
      var b := KeptAfter(keep, k);
      assert Adjacent(keep, a, b);
    }
  }

  /** One turn of the loop: the last span leaves the worklist, split at its farthest point or not. */
  method OneSpan(points: seq<Point>, keep: seq<bool>, stack: seq<Span>, limit: real)
    returns (kept: seq<bool>, next: seq<Span>)
    requires stack != [] && limit >= 0.0 && Underway(points, keep, stack, limit)
    ensures Underway(points, kept, next, limit) && 0 <= Work(next) < Work(stack)
    ensures KeptOf(kept) + Pending(points, next, limit) == KeptOf(keep) + Pending(points, stack, limit)
  {
    hide Settled, SquaredDistance, Height, Peak, Staying, Pending, KeptOf, Work;
    var n := |stack| - 1;
    var (first, last) := stack[n];
    var rest := stack[..n];
    assert stack == rest + [(first, last)] && Adjacent(keep, first, last);
    var farthest, index := Farthest(points, first, last);
    StayingBy(points, first, last, farthest, index, limit);
    if index >= 0 && farthest > limit {
      InnerPeak(points, first, last, index);
      WorkSplit(rest, first, index, last);
      PendingSplit(points, rest, first, index, last, limit);
      SpanSplit(points, keep, rest, first, index, last, limit);
      KeptMore(keep, index);
      kept, next := keep[index := true], rest + [(first, index)] + [(index, last)];
    } else {
      WorkSplit(rest, first, 0, last);
      PendingSplit(points, rest, first, 0, last, limit);
      NearEnough(points, first, last, farthest, limit);
      SpanSettled(points, keep, rest, first, last, limit);
      kept, next := keep, rest;
    }
    WorkLeft(points, kept, next, limit);
  }

  lemma WorkLeft(points: seq<Point>, keep: seq<bool>, stack: seq<Span>, limit: real)
    requires Underway(points, keep, stack, limit)
    ensures Work(stack) >= 0
  {
    hide Settled, Work;
    forall i | 0 <= i < |stack|
      ensures stack[i].0 < stack[i].1
    {
      assert Adjacent(keep, stack[i].0, stack[i].1);
    }
    WorkPositive(stack);
  }

  /** simplify, with squared distances against the square of the tolerance. */
  method SimplifyLine(points: seq<Point>, tolerance: real) returns (result: seq<Point>, ghost keep: seq<bool>)
    requires tolerance >= 0.0
    ensures Simplified(points, keep, tolerance * tolerance) && result == Selected(points, keep)
    ensures if |points| < 3 then result == points else KeptOf(keep) == Wanted(points, tolerance * tolerance)
    ensures points != [] ==> result != [] && result[0] == points[0] && result[|result| - 1] == points[|points| - 1]
  {
    if |points| < 3 {
      keep := seq(|points|, _ => true);
      AllSelected(points, keep);
      return points, keep;
    }
    var limit := tolerance * tolerance;
    assert limit >= 0.0;
    var kept := seq(|points|, k => k == 0 || k == |points| - 1);
    var stack: seq<Span> := [(0, |points| - 1)];
    assert Adjacent(kept, 0, |points| - 1);
    PendingFirst(points, kept, limit);
    WorkLeft(points, kept, stack, limit);
    hide Underway, Settled, Staying, Pending, KeptOf, Wanted, Work;
    while stack != []
      invariant Underway(points, kept, stack, limit) && Work(stack) >= 0
      invariant KeptOf(kept) + Pending(points, stack, limit) == Wanted(points, limit)
      decreases Work(stack)
    {
      kept, stack := OneSpan(points, kept, stack, limit);
    }
    NothingPending(points, limit);
    NothingLeft(points, kept, limit);
    SimplifiedEnds(points, kept, limit);
    EndsSurvive(points, kept);
    result, keep := Selected(points, kept), kept;
  }

  lemma SimplifiedEnds(points: seq<Point>, keep: seq<bool>, limit: real)
    requires Simplified(points, keep, limit) && points != []
    ensures |keep| == |points| && keep[0] && keep[|keep| - 1]
  {
    hide Settled;
  }

  lemma PendingFirst(points: seq<Point>, keep: seq<bool>, limit: real)
    requires |points| == |keep| >= 3 && forall k :: 0 <= k < |keep| ==> keep[k] == (k == 0 || k == |keep| - 1)
    ensures KeptOf(keep) + Pending(points, [(0, |points| - 1)], limit) == Wanted(points, limit)
  {
    NothingPending(points, limit);
    assert [(0, |points| - 1)][..0] == [];
    hide Staying;
  }

  lemma NothingPending(points: seq<Point>, limit: real)
    ensures Pending(points, [], limit) == {}
  {}

  lemma InnerPeak(points: seq<Point>, first: nat, last: nat, index: int)
    ensures index >= 0 && Peak(points, first, last, index) ==> first < index < last
  {
    hide Height;
  }

  /** The first and the last point survive. */
  lemma {:induction false} EndsSurvive(points: seq<Point>, keep: seq<bool>)
    requires |keep| == |points| > 0 && keep[0]
    ensures Selected(points, keep) != [] && Selected(points, keep)[0] == points[0]
    ensures keep[|keep| - 1] ==> Selected(points, keep)[|Selected(points, keep)| - 1] == points[|points| - 1]
  {
    var most := |points| - 1;
    if most > 0 {
      EndsSurvive(points[..most], keep[..most]);
    } else {
      assert Selected(points[..0], keep[..0]) == [];
    }
  }

  lemma NearEnough(points: seq<Point>, first: nat, last: nat, farthest: real, limit: real)
    requires first < last < |points| && farthest <= limit
    requires forall k: nat :: first < k < last ==> Height(points, first, last, k) <= farthest
    ensures Settled(points, first, last, limit)
  {
    forall k: nat | first < k < last
      ensures Near(points[k], points[first], points[last], limit)
    {
      HeightIs(points, first, last, k);
      NearByDistance(points[k], points[first], points[last], limit);
    }
    hide SquaredDistance, Near, Height;
  }

  lemma {:induction false} AllSelected(points: seq<Point>, keep: seq<bool>)
    requires |keep| == |points| && forall k :: 0 <= k < |keep| ==> keep[k]
    ensures Selected(points, keep) == points
  {
    if points != [] {
      AllSelected(points[..|points| - 1], keep[..|keep| - 1]);
      assert points == points[..|points| - 1] + [points[|points| - 1]];
    }
  }
}
