/** The fannkuch benchmark: every permutation once, and the longest run of prefix reversals. */
module Fannkuch {
  import opened Basics

  ghost predicate Distinct(p: seq<nat>) { forall i, j :: 0 <= i < j < |p| ==> p[i] != p[j] }

  ghost predicate IsPerm(p: seq<nat>, n: nat) { |p| == n && Distinct(p) && forall i :: 0 <= i < n ==> p[i] < n }

  // ---------- flips ----------

  /** The first element says how long a prefix is reversed. */
  function Flip(p: seq<nat>): (q: seq<nat>)
    requires |p| > 0 && p[0] < |p|
    ensures |q| == |p|
    ensures forall i :: 0 <= i < |p| ==> q[i] == if i <= p[0] then p[p[0] - i] else p[i]
  {
    Reversed(p[..p[0] + 1]) + p[p[0] + 1..]
  }

  /** Where the element comes from that a flip of the first `k + 1` puts at `i`. */
  function Source(k: nat, i: nat): nat { if i <= k then k - i else i }

  lemma SourcesApart(p: seq<nat>, n: nat, k: nat, i: nat, j: nat)
    requires IsPerm(p, n) && k < n && i < j < n
    ensures Source(k, i) < n && Source(k, j) < n && p[Source(k, i)] != p[Source(k, j)]
  {
    var a, b := Source(k, i), Source(k, j);
    assert a != b;
    hide Source;
    if a < b { assert p[a] != p[b]; } else { assert p[b] != p[a]; }
  }

  lemma FlipIsPerm(p: seq<nat>, n: nat)
    requires n > 0 && IsPerm(p, n)
    ensures IsPerm(Flip(p), n)
  {
    var q, k := Flip(p), p[0];
    assert forall i: nat :: i < n ==> q[i] == p[Source(k, i)];
    hide Flip, Source;
    forall i, j | 0 <= i < j < n
      ensures q[i] != q[j]
    {
      SourcesApart(p, n, k, i, j);
    }
    forall i | 0 <= i < n
      ensures q[i] < n
    {
      if i > 0 { SourcesApart(p, n, k, 0, i); } else if n > 1 { SourcesApart(p, n, k, 0, 1); }
    }
  }

  function Pow2(n: nat): nat { if n == 0 then 1 else 2 * Pow2(n - 1) }

  /** The sum of `2^i` over the places `i >= 1` below `n` that hold their own number. */
  function Settled(p: seq<nat>, n: nat): nat
    requires n <= |p|
  {
    if n <= 1 then 0 else Settled(p, n - 1) + if p[n - 1] == n - 1 then Pow2(n - 1) else 0
  }

  lemma {:induction false} SettledBound(p: seq<nat>, n: nat)
    requires n <= |p|
    ensures Settled(p, n) < Pow2(n)
  {
    if n != 0 { SettledBound(p, n - 1); }
  }

  lemma {:induction false} SettledAbove(p: seq<nat>, q: seq<nat>, k: nat, n: nat)
    requires k < n <= |p| == |q| && forall i :: k < i < n ==> p[i] == q[i]
    requires k > 0 && p[k] != k && q[k] == k
    ensures Settled(p, n) < Settled(q, n)
    decreases n
  {
    if n == k + 1 {
      SettledBound(p, k);
    } else {
      SettledAbove(p, q, k, n - 1);
    }
  }

  /** A flip settles the number it brings to its place, which outweighs all it unsettles. */
  lemma FlipSettles(p: seq<nat>)
    requires |p| > 0 && IsPerm(p, |p|) && p[0] != 0
    ensures Settled(p, |p|) < Settled(Flip(p), |p|)
  {
    SettledAbove(p, Flip(p), p[0], |p|);
  }

  /** How many flips bring 0 to the front. */
  ghost function Flips(p: seq<nat>): nat
    requires |p| > 0 && IsPerm(p, |p|)
    decreases Pow2(|p|) - Settled(p, |p|)
  {
    if p[0] == 0 then 0
    else
      FlipIsPerm(p, |p|);
      FlipSettles(p);
      SettledBound(Flip(p), |p|);
      1 + Flips(Flip(p))
  }

  /** The flip loop: it ends, having counted the flips. */
  method CountFlips(perm1: seq<nat>) returns (count: nat)
    requires |perm1| > 0 && IsPerm(perm1, |perm1|)
    ensures count == Flips(perm1)
  {
    var perm := perm1;
    count := 0;
    var k := perm[0];
    while k != 0
      invariant |perm| == |perm1| && IsPerm(perm, |perm|) && k == perm[0]
      invariant count + Flips(perm) == Flips(perm1)
      decreases Pow2(|perm|) - Settled(perm, |perm|)
    {
      FlipIsPerm(perm, |perm|);
      FlipSettles(perm);
      SettledBound(Flip(perm), |perm|);
      perm := Reversed(perm[..k + 1]) + perm[k + 1..];
      count := count + 1;
      k := perm[0];
    }
  }

  // ---------- what the guard skips ----------

  /** The greatest number and 0 change places. */
  function Exchanged(p: seq<nat>): (q: seq<nat>)
    ensures |q| == |p|
    ensures forall i :: 0 <= i < |p| ==> q[i] == if p[i] == 0 then |p| - 1 else if p[i] == |p| - 1 then 0 else p[i]
  {
    seq(|p|, (i: nat) requires i < |p| => if p[i] == 0 then |p| - 1 else if p[i] == |p| - 1 then 0 else p[i])
  }

  lemma ExchangedIsPerm(p: seq<nat>, n: nat)
    requires n > 1 && IsPerm(p, n)
    ensures IsPerm(Exchanged(p), n)
  {
    var q := Exchanged(p);
    hide Exchanged;
    forall i, j | 0 <= i < j < n
      ensures q[i] != q[j]
    {
      assert p[i] != p[j];
    }
  }

  /** Flips that leave the last place alone go through the exchange. */
  lemma ExchangeFlips(p: seq<nat>, n: nat)
    requires n > 1 && IsPerm(p, n) && p[n - 1] == n - 1 && p[0] != 0
    ensures p[0] < n - 1 && Flip(p)[n - 1] == n - 1 && Exchanged(p)[0] == p[0]
    ensures Flip(Exchanged(p)) == Exchanged(Flip(p))
  {
    assert p[0] != p[n - 1];
    hide Flip, Exchanged, Reversed;
  }

  /** With the greatest number last, the exchanged permutation takes one flip more. */
  lemma {:induction false} OneFlipMore(p: seq<nat>, n: nat)
    requires n > 1 && IsPerm(p, n) && p[n - 1] == n - 1
    ensures IsPerm(Exchanged(p), n) && Flips(Exchanged(p)) == Flips(p) + 1
    decreases Pow2(n) - Settled(p, n)
  {
    var q := Exchanged(p);
    ExchangedIsPerm(p, n);
    FlipIsPerm(q, n);
    hide Flip, Exchanged, Reversed, IsPerm;
    if p[0] == 0 {
      assert Flip(q)[0] == q[n - 1] == 0;
      assert Flips(Flip(q)) == 0;
    } else {
      ExchangeFlips(p, n);
      FlipIsPerm(p, n);
      FlipSettles(p);
      SettledBound(Flip(p), n);
      OneFlipMore(Flip(p), n);
    }
  }

  predicate Counted(p: seq<nat>)
    requires |p| > 0
  {
    p[0] != 0 && p[|p| - 1] != |p| - 1
  }

  /** The guard skips nothing that matters: some permutation it lets through takes at least as many flips. */
  lemma CountedIsEnough(p: seq<nat>, n: nat) returns (q: seq<nat>)
    requires n > 0 && IsPerm(p, n) && Flips(p) > 0
    ensures IsPerm(q, n) && Counted(q) && Flips(q) >= Flips(p)
  {
    q := p;
    if !Counted(p) {
      assert p[0] < n;
      OneFlipMore(p, n);
      assert p[0] != p[n - 1];
      q := Exchanged(p);
    }
  }

  // ---------- rotations ----------

  /** The first `m` elements rotated left by `q`. */
  function Rot(s: seq<nat>, m: nat, q: nat): (r: seq<nat>)
    requires q <= m <= |s|
    ensures |r| == |s|
  {
    s[q..m] + s[..q] + s[m..]
  }

  lemma RotOnce(s: seq<nat>, m: nat, q: nat)
    requires q < m <= |s|
    ensures Rot(Rot(s, m, q), m, 1) == Rot(s, m, q + 1)
  {
    var t := Rot(s, m, q);
    assert t[0] == s[q] && t[1..m] == s[q + 1..m] + s[..q] && t[m..] == s[m..];
    assert s[..q + 1] == s[..q] + [s[q]];
  }

  lemma RotNone(s: seq<nat>, m: nat)
    requires m <= |s|
    ensures Rot(s, m, 0) == s && Rot(s, m, m) == s
  {}

  /** Digits of the counting machine: digit `i` counts the rotations of the first `i + 1` elements. */
  ghost predicate Digits(d: seq<nat>) { forall i :: 0 <= i < |d| ==> d[i] <= i }

  /** The rotations of the levels from `m - 1` down to `lo`. */
  function Top(s: seq<nat>, d: seq<nat>, m: nat, lo: nat): (r: seq<nat>)
    requires m <= |d| && |d| == |s| && forall i :: 0 <= i < |d| ==> d[i] <= i
    ensures |r| == |s|
    decreases m
  {
    if m <= lo then s else Top(Rot(s, m, d[m - 1]), d, m - 1, lo)
  }

  lemma {:induction false} TopStep(s: seq<nat>, d: seq<nat>, m: nat, lo: nat)
    requires lo < m <= |d| == |s| && Digits(d)
    ensures Top(s, d, m, lo) == Rot(Top(s, d, m, lo + 1), lo + 1, d[lo])
    decreases m
  {
    if m > lo + 1 { TopStep(Rot(s, m, d[m - 1]), d, m - 1, lo); }
  }

  /** Only the digits of the levels applied matter. */
  lemma {:induction false} TopSame(s: seq<nat>, d: seq<nat>, e: seq<nat>, m: nat, lo: nat)
    requires m <= |d| == |e| == |s| && Digits(d) && Digits(e) && forall i :: lo <= i < m ==> d[i] == e[i]
    ensures Top(s, d, m, lo) == Top(s, e, m, lo)
    decreases m
  {
    if m > lo { TopSame(Rot(s, m, d[m - 1]), d, e, m - 1, lo); }
  }

  lemma {:induction false} TopZeros(s: seq<nat>, d: seq<nat>, m: nat, lo: nat, r: nat)
    requires lo <= r <= m <= |d| == |s| && Digits(d) && forall i :: lo <= i < r ==> d[i] == 0
    ensures Top(s, d, m, lo) == Top(s, d, m, r)
    decreases r - lo
  {
    if lo < r {
      TopStep(s, d, m, lo);
      RotNone(Top(s, d, m, lo + 1), lo + 1);
      hide Rot, Top;
      TopZeros(s, d, m, lo + 1, r);
    }
  }

  // ---------- digits and permutations ----------

  lemma RotPermutes(s: seq<nat>, m: nat, q: nat)
    requires q <= m <= |s|
    ensures multiset(Rot(s, m, q)) == multiset(s)
  {
    assert s == s[..q] + s[q..m] + s[m..];
  }

  lemma {:induction false} TopKeepsTail(s: seq<nat>, d: seq<nat>, m: nat, lo: nat)
    requires m <= |d| == |s| && Digits(d)
    ensures Top(s, d, m, lo)[m..] == s[m..]
    decreases m
  {
    if m > lo {
      var t := Rot(s, m, d[m - 1]);
      TopKeepsTail(t, d, m - 1, lo);
      assert Top(t, d, m - 1, lo)[m - 1..][1..] == t[m - 1..][1..];
    }
  }

  lemma RotLast(s: seq<nat>, m: nat, q: nat)
    requires q < m <= |s|
    ensures Rot(s, m, q)[m - 1] == s[if q == 0 then m - 1 else q - 1]
  {}

  lemma RotTail(s: seq<nat>, m: nat, q: nat)
    requires q <= m <= |s|
    ensures Rot(s, m, q)[m..] == s[m..]
  {}

  /** Different digits give different permutations. */
  lemma {:induction false} TopInjective(s: seq<nat>, d: seq<nat>, e: seq<nat>, m: nat)
    requires m <= |d| == |e| == |s| && Digits(d) && Digits(e) && Distinct(s)
    requires Top(s, d, m, 1) == Top(s, e, m, 1)
    ensures forall i :: 0 <= i < m ==> d[i] == e[i]
    decreases m
  {
    if m > 1 {
      var t, u := Rot(s, m, d[m - 1]), Rot(s, m, e[m - 1]);
      TopKeepsTail(t, d, m - 1, 1);
      TopKeepsTail(u, e, m - 1, 1);
      RotLast(s, m, d[m - 1]);
      RotLast(s, m, e[m - 1]);
      assert t[m - 1] == t[m - 1..][0] == Top(t, d, m - 1, 1)[m - 1..][0];
      assert u[m - 1] == u[m - 1..][0] == Top(u, e, m - 1, 1)[m - 1..][0];
      assert d[m - 1] == e[m - 1];
      DistinctRot(s, m, d[m - 1]);
      TopInjective(t, d, e, m - 1);
    }
  }

  lemma DistinctRot(s: seq<nat>, m: nat, q: nat)
    requires q <= m <= |s| && Distinct(s)
    ensures Distinct(Rot(s, m, q))
  {
    var t := Rot(s, m, q);
    forall i, j | 0 <= i < j < |s|
      ensures t[i] != t[j]
    {
      var a := if i < m - q then q + i else if i < m then i - (m - q) else i;
      var b := if j < m - q then q + j else if j < m then j - (m - q) else j;
      assert t[i] == s[a] && t[j] == s[b];
    }
  }

  /** Every rearrangement is reached by some digits. */
  lemma {:induction false} TopSurjective(s: seq<nat>, p: seq<nat>, m: nat) returns (d: seq<nat>)
    requires m <= |s| == |p| && multiset(p) == multiset(s) && p[m..] == s[m..]
    ensures |d| == |s| && Digits(d) && Top(s, d, m, 1) == p
    decreases m
  {
    if m <= 1 {
      d := seq(|s|, _ => 0);
      FirstFollows(s, p, m);
    } else {
      var x := FindLast(s, p, m);
      var q := if x == m - 1 then 0 else x + 1;
      var t := Rot(s, m, q);
      RotLast(s, m, q);
      RotPermutes(s, m, q);
      RotTail(s, m, q);
      assert t[m - 1..] == [t[m - 1]] + t[m..] && p[m - 1..] == [p[m - 1]] + p[m..];
      hide Rot, Top;
      var e := TopSurjective(t, p, m - 1);
      d := e[m - 1 := q];
      TopSame(t, e, d, m - 1, 1);
      TopUnfold(s, d, m);
    }
  }

  lemma TopUnfold(s: seq<nat>, d: seq<nat>, m: nat)
    requires 1 < m <= |d| == |s| && Digits(d)
    ensures Top(s, d, m, 1) == Top(Rot(s, m, d[m - 1]), d, m - 1, 1)
  {}

  lemma FindLast(s: seq<nat>, p: seq<nat>, m: nat) returns (x: nat)
    requires 0 < m <= |s| == |p| && multiset(p) == multiset(s) && p[m..] == s[m..]
    ensures x < m && s[x] == p[m - 1]
  {
    SameRest(s, p, m);
    assert p[m - 1] in multiset(p[..m]);
    assert p[m - 1] in s[..m];
    x :| 0 <= x < m && s[x] == p[m - 1];
  }

  lemma SameRest(s: seq<nat>, p: seq<nat>, m: nat)
    requires m <= |s| == |p| && multiset(p) == multiset(s) && p[m..] == s[m..]
    ensures multiset(p[..m]) == multiset(s[..m])
  {
    assert p == p[..m] + p[m..] && s == s[..m] + s[m..];
    var a, b, t := multiset(p[..m]), multiset(s[..m]), multiset(s[m..]);
    assert a + t == b + t;
    assert a == (a + t) - t && b == (b + t) - t;
  }

  lemma FirstFollows(s: seq<nat>, p: seq<nat>, m: nat)
    requires m <= 1 && m <= |s| == |p| && multiset(p) == multiset(s) && p[m..] == s[m..]
    ensures s == p
  {
    SameRest(s, p, m);
    if m == 1 {
      assert p[..1] == [p[0]] && s[..1] == [s[0]];
      assert p[0] in multiset(s[..1]);
    }
    assert p == p[..m] + p[m..] && s == s[..m] + s[m..];
  }

  // ---------- counting ----------

  function Factorial(n: nat): (f: nat)
    ensures f > 0
  {
    if n == 0 then 1
    else
      ProdPositive(n, Factorial(n - 1));
      Prod(n, Factorial(n - 1))
  }

  /** The number whose digits, in the factorial base, are the first `m` of `d`. */
  function Index(d: seq<nat>, m: nat): nat
    requires m <= |d|
  {
    if m == 0 then 0 else Index(d, m - 1) + Prod(d[m - 1], Factorial(m - 1))
  }

  lemma {:induction false} IndexBound(d: seq<nat>, m: nat)
    requires m <= |d| && Digits(d)
    ensures Index(d, m) < Factorial(m)
  {
    if m != 0 {
      IndexBound(d, m - 1);
      ProdOrder(d[m - 1], m - 1, Factorial(m - 1));
      ProdNext(m - 1, Factorial(m - 1));
      hide Prod;
    }
  }

  /** Different digits are different numbers. */
  lemma {:induction false} IndexInjective(d: seq<nat>, e: seq<nat>, m: nat)
    requires m <= |d| && m <= |e| && Digits(d) && Digits(e) && Index(d, m) == Index(e, m)
    ensures forall i :: 0 <= i < m ==> d[i] == e[i]
  {
    if m != 0 {
      IndexBound(d, m - 1);
      IndexBound(e, m - 1);
      var f := Factorial(m - 1);
      if d[m - 1] < e[m - 1] {
        ProdOrder(d[m - 1] + 1, e[m - 1], f);
        ProdNext(d[m - 1], f);
      } else if e[m - 1] < d[m - 1] {
        ProdOrder(e[m - 1] + 1, d[m - 1], f);
        ProdNext(e[m - 1], f);
      }
      hide Prod, Factorial;
      assert d[m - 1] == e[m - 1];
      IndexInjective(d, e, m - 1);
    }
  }

  /** Digits at their greatest are one short of the next place. */
  lemma {:induction false} FullIndex(d: seq<nat>, r: nat)
    requires 1 <= r <= |d| && d[0] == 0 && forall i :: 1 <= i < r ==> d[i] == i
    ensures Index(d, r) + 1 == Factorial(r)
  {
    if r == 1 {
      assert Index(d, 1) == Index(d, 0) + Prod(0, Factorial(0)) == 0;
      assert Factorial(1) == Prod(1, Factorial(0)) == 1;
    } else {
      FullIndex(d, r - 1);
      ProdNext(r - 1, Factorial(r - 1));
      hide Prod;
    }
  }

  lemma {:induction false} ZeroIndex(d: seq<nat>, r: nat)
    requires r <= |d| && forall i :: 0 <= i < r ==> d[i] == 0
    ensures Index(d, r) == 0
  {
    if r != 0 { ZeroIndex(d, r - 1); }
  }

  /** The digits after one more step: places below `r` start again. */
  function Carried(d: seq<nat>, r: nat): (e: seq<nat>)
    requires r < |d|
    ensures |e| == |d|
    ensures forall i :: 0 <= i < |d| ==> e[i] == if i < r then 0 else if i == r then d[r] + 1 else d[i]
  {
    seq(|d|, (i: nat) requires i < |d| => if i < r then 0 else if i == r then d[r] + 1 else d[i])
  }

  lemma {:induction false} CarriedIndex(d: seq<nat>, r: nat, m: nat)
    requires 1 <= r < m <= |d| && d[0] == 0 && forall i :: 1 <= i < r ==> d[i] == i
    ensures Index(Carried(d, r), m) == Index(d, m) + 1
    decreases m
  {
    var e := Carried(d, r);
    if m == r + 1 {
      FullIndex(d, r);
      ZeroIndex(e, r);
      ProdNext(d[r], Factorial(r));
      hide Prod, Factorial;
    } else {
      CarriedIndex(d, r, m - 1);
      hide Prod, Factorial;
    }
  }

  // ---------- the machine ----------

  function Start(n: nat): (s: seq<nat>)
    ensures |s| == n && forall i :: 0 <= i < n ==> s[i] == i
  {
    seq(n, (i: nat) => i)
  }

  /** The permutation that the digits `d` stand for. */
  ghost predicate At(perm: seq<nat>, d: seq<nat>, n: nat, lo: nat) {
    |d| == n && n > 0 && Digits(d) && perm == Top(Start(n), d, n, lo)
  }

  ghost predicate Counts(count: seq<int>, d: seq<nat>, n: nat, from: nat)
    requires |d| == n
  {
    |count| == n && forall i :: from <= i < n ==> count[i] == i + 1 - d[i]
  }

  /** A turn of one level, still within its digit's range. */
  lemma TurnLevel(perm: seq<nat>, d: seq<nat>, n: nat, r: nat)
    requires 1 <= r < n && At(perm, d, n, r) && d[r] < r && d[0] == 0 && forall i :: 1 <= i < r ==> d[i] == i
    ensures At(Rot(perm, r + 1, 1), Carried(d, r), n, 1) && Index(Carried(d, r), n) == Index(d, n) + 1
  {
    var e, s := Carried(d, r), Start(n);
    TopStep(s, d, n, r);
    TopStep(s, e, n, r);
    TopSame(s, d, e, n, r + 1);
    RotOnce(Top(s, d, n, r + 1), r + 1, d[r]);
    TopZeros(s, e, n, 1, r);
    CarriedIndex(d, r, n);
    hide Top, Rot, Index, Start;
  }

  /** The last turn of a level undoes the others. */
  lemma WrapLevel(perm: seq<nat>, d: seq<nat>, n: nat, r: nat)
    requires 1 <= r < n && At(perm, d, n, r) && d[r] == r
    ensures At(Rot(perm, r + 1, 1), d, n, r + 1)
  {
    var s := Start(n);
    TopStep(s, d, n, r);
    RotOnce(Top(s, d, n, r + 1), r + 1, r);
    RotNone(Top(s, d, n, r + 1), r + 1);
    hide Top, Rot, Start;
  }

  /** The second inner loop: on to the next permutation, or done after the last. */
  method Advance(count: array<int>, perm1: seq<nat>, n: nat, ghost d: seq<nat>)
    returns (done: bool, perm: seq<nat>, r: nat, ghost e: seq<nat>)
    requires count.Length == n && At(perm1, d, n, 1) && d[0] == 0 && Counts(count[..], d, n, 1)
    modifies count
    ensures done ==> Index(d, n) + 1 == Factorial(n)
    ensures !done ==> 1 <= r < n && At(perm, e, n, 1) && Index(e, n) == Index(d, n) + 1
    ensures !done ==> e[0] == 0 && (forall i :: 1 <= i < r ==> e[i] == 0) && Counts(count[..], e, n, r)
  {
    hide Top, Rot, Index, Start, Factorial;
    perm, r, e := perm1, 1, d;
    while r != n
      invariant 1 <= r <= n && At(perm, d, n, r)
      invariant forall i :: 1 <= i < r ==> d[i] == i
      invariant Counts(count[..], d, n, r)
    {
      assert count[r] == count[..][r];
      if d[r] < r {
        TurnLevel(perm, d, n, r);
      } else {
        WrapLevel(perm, d, n, r);
      }
      RotAsMoved(perm, r);
      perm := perm[1..r + 1] + [perm[0]] + perm[r + 1..];
      count[r] := count[r] - 1;
      if count[r] > 0 {
        e := Carried(d, r);
        done := false;
        return;
      }
      r := r + 1;
    }
    FullIndex(d, n);
    done := true;
  }

  /** insert(r, pop(0)) is a rotation. */
  lemma RotAsMoved(s: seq<nat>, r: nat)
    requires r < |s|
    ensures Rot(s, r + 1, 1) == s[1..r + 1] + [s[0]] + s[r + 1..]
  {
    assert s[..1] == [s[0]];
  }

  /** The first inner loop: the counts of the low places start again. */
  method ResetCounts(count: array<int>, r0: nat, n: nat, ghost d: seq<nat>)
    requires count.Length == n == |d| && 1 <= r0 <= n && Counts(count[..], d, n, r0) && forall i :: 1 <= i < r0 ==>
               d[i] == 0
    modifies count
    ensures Counts(count[..], d, n, 1)
  {
    var r := r0;
    while r != 1
      invariant 1 <= r <= r0 && Counts(count[..], d, n, r)
    {
      count[r - 1] := r;
      r := r - 1;
    }
  }

  // ---------- the visits ----------

  /** The digits of the visits so far count up from zero. */
  ghost predicate Visited(visits: seq<seq<nat>>, ds: seq<seq<nat>>, n: nat) {
    && |visits| == |ds|
    && forall k :: 0 <= k < |ds| ==> At(visits[k], ds[k], n, 1) && Index(ds[k], n) == k
  }

  /** The most flips of the visited permutations that the guard lets through. */
  ghost predicate Best(most: nat, visits: seq<seq<nat>>, n: nat) {
    && n > 0
    && (forall p :: p in visits ==> IsPerm(p, n) && (Counted(p) ==> Flips(p) <= most))
    && (most == 0 || exists p :: p in visits && IsPerm(p, n) && Counted(p) && Flips(p) == most)
  }

  /** Digits stand for permutations. */
  lemma AtIsPerm(perm: seq<nat>, d: seq<nat>, n: nat)
    requires At(perm, d, n, 1)
    ensures IsPerm(perm, n)
  {
    TopIsPerm(Start(n), d, n, n);
  }

  lemma {:induction false} TopIsPerm(s: seq<nat>, d: seq<nat>, m: nat, n: nat)
    requires m <= n == |s| == |d| && Digits(d) && IsPerm(s, n)
    ensures IsPerm(Top(s, d, m, 1), n)
    decreases m
  {
    if m > 1 {
      var t := Rot(s, m, d[m - 1]);
      DistinctRot(s, m, d[m - 1]);
      TopIsPerm(t, d, m - 1, n);
    }
  }

  /** All factorial-many visits: nothing twice, nothing left out. */
  lemma VisitsAreAll(visits: seq<seq<nat>>, ds: seq<seq<nat>>, n: nat)
    requires n > 0 && Visited(visits, ds, n) && |visits| == Factorial(n)
    ensures forall p :: IsPerm(p, n) <==> p in visits
    ensures forall j, k :: 0 <= j < k < |visits| ==> visits[j] != visits[k]
  {
    hide Top, Index, Factorial, Start;
    forall p | IsPerm(p, n)
      ensures p in visits
    {
      PermMultiset(p, n);
      PermMultiset(Start(n), n);
      var d := TopSurjective(Start(n), p, n);
      IndexBound(d, n);
      var k := Index(d, n);
      assert At(visits[k], ds[k], n, 1);
      IndexInjective(d, ds[k], n);
      assert ds[k] == d;
    }
    forall p | p in visits
      ensures IsPerm(p, n)
    {
      var k :| 0 <= k < |visits| && visits[k] == p;
      AtIsPerm(p, ds[k], n);
    }
    forall j, k | 0 <= j < k < |visits|
      ensures visits[j] != visits[k]
    {
      var d, e := ds[j], ds[k];
      assert At(visits[j], d, n, 1) && At(visits[k], e, n, 1) && Index(d, n) == j && Index(e, n) == k;
      if visits[j] == visits[k] {
        TopInjective(Start(n), d, e, n);
      }
      assert d != e;
    }
  }

  lemma {:induction false} DistinctOnce(p: seq<nat>, v: nat)
    requires Distinct(p)
    ensures multiset(p)[v] <= 1
  {
    if p != [] {
      var k := |p| - 1;
      DistinctOnce(p[..k], v);
      assert p == p[..k] + [p[k]];
      assert v == p[k] ==> v !in p[..k];
    }
  }

  /** A permutation of the numbers below `n` has each of them once. */
  lemma PermMultiset(p: seq<nat>, n: nat)
    requires IsPerm(p, n)
    ensures multiset(p) == multiset(Start(n))
  {
    var a, b := multiset(p), multiset(Start(n));
    forall v | v in a
      ensures a[v] <= b[v]
    {
      DistinctOnce(p, v);
      assert v in p && v < n && Start(n)[v] == v;
      assert v in b;
    }
    assert b == a + (b - a);
    assert |b - a| == 0;
  }

  /** One visit: the flips of a permutation that the guard lets through. */
  method Visit(perm1: seq<nat>, most0: nat, n: nat, ghost visits: seq<seq<nat>>) returns (most: nat)
    requires n > 0 && IsPerm(perm1, n) && Best(most0, visits, n)
    ensures Best(most, visits + [perm1], n)
  {
    hide Flips, Distinct;
    most := most0;
    if perm1[0] != 0 && perm1[n - 1] != n - 1 {
      var flips := CountFlips(perm1);
      if flips > most {
        most := flips;
      }
    }
    assert forall p :: p in visits + [perm1] <==> p in visits || p == perm1;
  }

  /** fannkuch: every permutation is visited once, and the result is the most flips any of them takes. */
  method Fannkuch(n: nat) returns (maxFlips: nat, ghost visits: seq<seq<nat>>)
    requires n > 0
    ensures |visits| == Factorial(n)
    ensures forall p :: IsPerm(p, n) <==> p in visits
    ensures forall j, k :: 0 <= j < k < |visits| ==> visits[j] != visits[k]
    ensures forall p :: IsPerm(p, n) ==> Flips(p) <= maxFlips
    ensures exists p :: IsPerm(p, n) && Flips(p) == maxFlips
  {
    var count := new int[n](i => i + 1);
    maxFlips := 0;
    var r, perm1 := n, Start(n);
    ghost var d: seq<nat> := seq(n, _ => 0);
    ghost var ds: seq<seq<nat>> := [];
    visits := [];
    TopZeros(Start(n), d, n, 1, n);
    ZeroIndex(d, n);
    IndexBound(d, n);
    hide Top, Index, Factorial, Flips, IsPerm, Start, Best;
    assert Best(0, [], n) by { NothingVisited(n); }
    while true
      invariant 1 <= r <= n && At(perm1, d, n, 1) && d[0] == 0 && (forall i :: 1 <= i < r ==> d[i] == 0)
      invariant Counts(count[..], d, n, r)
      invariant Visited(visits, ds, n) && |visits| == Index(d, n) < Factorial(n)
      invariant Best(maxFlips, visits, n)
      decreases Factorial(n) - Index(d, n)
    {
      ResetCounts(count, r, n, d);
      AtIsPerm(perm1, d, n);
      maxFlips := Visit(perm1, maxFlips, n, visits);
      visits, ds := visits + [perm1], ds + [d];
      var done, perm;
      ghost var e;
      done, perm, r, e := Advance(count, perm1, n, d);
      if done {
        VisitsAreAll(visits, ds, n);
        BestOfAll(maxFlips, visits, n);
        return;
      }
      IndexBound(e, n);
      perm1, d := perm, e;
    }
  }

  lemma NothingVisited(n: nat)
    requires n > 0
    ensures Best(0, [], n)
  {}

  lemma BestOfAll(most: nat, visits: seq<seq<nat>>, n: nat)
    requires Best(most, visits, n) && forall p :: IsPerm(p, n) <==> p in visits
    ensures n > 0 && forall p :: IsPerm(p, n) ==> Flips(p) <= most
    ensures exists p :: IsPerm(p, n) && Flips(p) == most
  {
    StartIsPerm(n);
    hide Flips, Distinct, Start;
    forall p | IsPerm(p, n)
      ensures Flips(p) <= most
    {
      if Flips(p) > 0 { var q := CountedIsEnough(p, n); }
    }
    if most == 0 { assert Flips(Start(n)) == 0; }
  }

  lemma StartIsPerm(n: nat)
    ensures IsPerm(Start(n), n)
  {}
}
