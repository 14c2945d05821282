/** LU factorisation with partial pivoting, in place. */
module Lu {
  import opened Wrappers

  type Rows = seq<seq<real>>

  ghost predicate Matrix(d: Rows, m: nat, n: nat) { |d| == m && forall i :: 0 <= i < m ==> |d[i]| == n }

  function Mul(x: real, y: real): real { x * y }

  function Abs(x: real): real { if x < 0.0 then -x else x }

  function Min(a: nat, b: nat): nat { if a <= b then a else b }

  function Swapped(d: Rows, a: nat, b: nat): (r: Rows)
    requires a < |d| && b < |d|
    ensures |r| == |d|
  {
    d[a := d[b]][b := d[a]]
  }

  /** The rows after the first `j` recorded exchanges. */
  function Permuted(d: Rows, pivot: seq<nat>, j: nat): (r: Rows)
    requires j <= |pivot| && j <= |d| && forall k :: 0 <= k < |pivot| ==> pivot[k] < |d|
    ensures |r| == |d|
  {
    if j == 0 then d else Swapped(Permuted(d, pivot, j - 1), j - 1, pivot[j - 1])
  }

  // ---------- what the entries mean ----------

  /** The first `n` terms of row `i` of L times column `c` of U. */
  function Dot(d: Rows, i: nat, c: nat, n: nat): real
    requires i < |d| && n <= |d[i]| && n <= |d| && forall k :: 0 <= k < n ==> c < |d[k]|
  {
    if n == 0 then 0.0 else Dot(d, i, c, n - 1) + Mul(d[i][n - 1], d[n - 1][c])
  }

  /** Entry (i, c) of the permuted matrix `b`, after `j` steps: left of the diagonal reached it is
      the product of what L and U hold; elsewhere a remainder still stands in `d`. */
  ghost predicate Entry(d: Rows, b: Rows, m: nat, n: nat, j: nat, i: nat, c: nat)
    requires Matrix(d, m, n) && Matrix(b, m, n) && i < m && c < n && j <= m && j <= n
  {
    var s := Min(i, j);
    if c < s then b[i][c] == Dot(d, i, c, c) + Mul(d[i][c], d[c][c]) else b[i][c] == Dot(d, i, c, s) + d[i][c]
  }

  ghost predicate Factored(d: Rows, b: Rows, m: nat, n: nat, j: nat) {
    && Matrix(d, m, n) && Matrix(b, m, n) && j <= m && j <= n
    && forall i, c :: 0 <= i < m && 0 <= c < n ==> Entry(d, b, m, n, j, i, c)
  }

  /** No multiplier of the first `j` columns exceeds one. */
  ghost predicate Bounded(d: Rows, m: nat, n: nat, j: nat)
    requires Matrix(d, m, n) && j <= n
  {
    forall i, k :: 0 <= i < m && 0 <= k < j && k < i ==> Abs(d[i][k]) <= 1.0
  }

  lemma {:induction false} DotSame(d: Rows, e: Rows, i: nat, i2: nat, c: nat, n: nat)
    requires i < |d| && i2 < |e| && n <= |d[i]| && n <= |e[i2]| && n <= |d| && n <= |e|
    requires forall k :: 0 <= k < n ==> c < |d[k]| && c < |e[k]| && d[k][c] == e[k][c]
    requires forall k :: 0 <= k < n ==> d[i][k] == e[i2][k]
    ensures Dot(d, i, c, n) == Dot(e, i2, c, n)
  {
    if n != 0 { DotSame(d, e, i, i2, c, n - 1); }
  }

  /** The pivots of the first `j` columns are not zero. */
  ghost predicate Regular(d: Rows, m: nat, n: nat, j: nat)
    requires Matrix(d, m, n)
  {
    j <= m && j <= n && forall k :: 0 <= k < j ==> d[k][k] != 0.0
  }

  lemma RegularMore(e: Rows, d: Rows, m: nat, n: nat, j: nat)
    requires Matrix(d, m, n) && Matrix(e, m, n) && j < m && j < n && d[j][j] != 0.0 && Eliminated(e, d, m, n, j) &&
             Regular(d, m, n, j)
    ensures Regular(e, m, n, j + 1)
  {
    hide Mul;
    forall k | 0 <= k < j + 1
      ensures e[k][k] != 0.0
    {
      assert EliminatedAt(e, d, m, n, j, k, k);
    }
  }

  // ---------- a step keeps the meaning ----------

  /** Exchanging two rows not finished yet, in both. */
  lemma SwapKeeps(d: Rows, b: Rows, m: nat, n: nat, j: nat, p: nat)
    requires Factored(d, b, m, n, j) && Bounded(d, m, n, j) && j <= p < m && j < n
    ensures Factored(Swapped(d, j, p), Swapped(b, j, p), m, n, j) && Bounded(Swapped(d, j, p), m, n, j)
  {
    hide Mul, Dot, Abs;
    var e, b2 := Swapped(d, j, p), Swapped(b, j, p);
    forall i, c | 0 <= i < m && 0 <= c < n
      ensures Entry(e, b2, m, n, j, i, c)
    {
      var from := if i == j then p else if i == p then j else i;
      assert Entry(d, b, m, n, j, from, c);
      DotSame(d, e, from, i, c, if c < Min(i, j) then c else Min(i, j));
    }
  }

  /** The column below the pivot divided by it, and the outer product taken off the rest. */
  ghost predicate EliminatedAt(e: Rows, d: Rows, m: nat, n: nat, j: nat, i: nat, c: nat)
    requires Matrix(d, m, n) && Matrix(e, m, n) && j < m && j < n && d[j][j] != 0.0 && i < m && c < n
  {
    e[i][c] == if i <= j || c < j then d[i][c]
               else if c == j then Mul(d[i][j], 1.0 / d[j][j])
               else d[i][c] - Mul(Mul(d[i][j], 1.0 / d[j][j]), d[j][c])
  }

  ghost predicate Eliminated(e: Rows, d: Rows, m: nat, n: nat, j: nat)
    requires Matrix(d, m, n) && Matrix(e, m, n) && j < m && j < n && d[j][j] != 0.0
  {
    forall i, c :: 0 <= i < m && 0 <= c < n ==> EliminatedAt(e, d, m, n, j, i, c)
  }

  lemma DivideBack(x: real, p: real)
    requires p != 0.0
    ensures Mul(Mul(x, 1.0 / p), p) == x
  {
    assert (1.0 / p) * p == 1.0;
    assert (x * (1.0 / p)) * p == x * ((1.0 / p) * p);
  }

  lemma EliminationKeeps(e: Rows, d: Rows, b: Rows, m: nat, n: nat, j: nat)
    requires Factored(d, b, m, n, j) && Matrix(e, m, n) && j < m && j < n && d[j][j] != 0.0 && Eliminated(e, d, m, n, j)
    ensures Factored(e, b, m, n, j + 1)
  {
    hide Mul, Dot, Eliminated;
    var next := j + 1;
    forall i, c | 0 <= i < m && 0 <= c < n
      ensures Entry(e, b, m, n, next, i, c)
    {
      assert Entry(d, b, m, n, j, i, c);
      EntryKept(e, d, b, m, n, j, i, c);
    }
  }

  lemma EntryKept(e: Rows, d: Rows, b: Rows, m: nat, n: nat, j: nat, i: nat, c: nat)
    requires Matrix(d, m, n) && Matrix(b, m, n) && Matrix(e, m, n) && j < m && j < n && d[j][j] != 0.0 &&
             Eliminated(e, d, m, n, j)
    requires i < m && c < n && Entry(d, b, m, n, j, i, c)
    ensures Entry(e, b, m, n, j + 1, i, c)
  {
    var s := Min(i, j);
    var terms := if c < s then c else s;
    hide Mul, Dot, Factored;
    forall k | 0 <= k < terms
      ensures d[k][c] == e[k][c] && d[i][k] == e[i][k]
    {
      assert EliminatedAt(e, d, m, n, j, k, c) && EliminatedAt(e, d, m, n, j, i, k);
    }
    DotSame(d, e, i, i, c, terms);
    assert EliminatedAt(e, d, m, n, j, i, c);
    if c < j {
      assert EliminatedAt(e, d, m, n, j, c, c);
    } else if i > j {
      assert EliminatedAt(e, d, m, n, j, j, c) && EliminatedAt(e, d, m, n, j, i, j);
      DivideBack(d[i][j], d[j][j]);
      OneMoreTerm(e, i, c, j);
    }
  }

  lemma OneMoreTerm(d: Rows, i: nat, c: nat, n: nat)
    requires i < |d| && n < |d[i]| && n < |d| && forall k :: 0 <= k <= n ==> c < |d[k]|
    ensures Dot(d, i, c, n + 1) == Dot(d, i, c, n) + Mul(d[i][n], d[n][c])
  {}

  /** Dividing by the greatest candidate bounds the new multipliers. */
  lemma QuotientBounded(x: real, p: real)
    requires p != 0.0 && Abs(x) <= Abs(p)
    ensures Abs(Mul(x, 1.0 / p)) <= 1.0
  {
    var q := x * (1.0 / p);
    assert x * (1.0 / p) == x / p;
    if p > 0.0 {
      assert -p <= x <= p;
      assert x / p <= 1.0 && x / p >= -1.0;
    } else {
      assert p <= x <= -p;
      assert x / p <= 1.0 && x / p >= -1.0;
    }
  }

  lemma EliminationBounded(e: Rows, d: Rows, m: nat, n: nat, j: nat)
    requires Matrix(d, m, n) && Matrix(e, m, n) && j < m && j < n && d[j][j] != 0.0 && Eliminated(e, d, m, n, j) &&
             Bounded(d, m, n, j)
    requires forall i :: j <= i < m ==> Abs(d[i][j]) <= Abs(d[j][j])
    ensures Bounded(e, m, n, j + 1)
  {
    hide Mul, Abs;
    forall i, k | 0 <= i < m && 0 <= k < j + 1 && k < i
      ensures Abs(e[i][k]) <= 1.0
    {
      assert EliminatedAt(e, d, m, n, j, i, k);
      if k == j {
        QuotientBounded(d[i][j], d[j][j]);
      }
    }
  }

  // ---------- the factorisation ----------

  class ArrayList {
    const width: nat
    const height: nat
    var data: Rows

    constructor (data: Rows, width: nat)
      requires Matrix(data, |data|, width)
      ensures Valid() && this.data == data && this.width == width && height == |data|
    {
      this.data, this.width, this.height := data, width, |data|;
    }

    ghost predicate Valid()
      reads this
    {
      Matrix(data, height, width)
    }

    method Set(i: nat, c: nat, v: real)
      requires Valid() && i < height && c < width
      modifies this
      ensures Valid() && data == old(data)[i := old(data)[i][c := v]]
    {
      data := data[i := data[i][c := v]];
    }
  }

  /** The pivot search: the first row from `j` on whose entry in column `j` is greatest. */
  method FindPivot(a: ArrayList, j: nat) returns (jp: nat)
    requires a.Valid() && j < a.height && j < a.width
    ensures j <= jp < a.height
    ensures forall i :: j <= i < a.height ==> Abs(a.data[i][j]) <= Abs(a.data[jp][j])
    ensures forall i :: j <= i < jp ==> Abs(a.data[i][j]) < Abs(a.data[jp][j])
  {
    jp := j;
    var t := Abs(a.data[j][j]);
    for i := j + 1 to a.height
      invariant j <= jp < i && t == Abs(a.data[jp][j])
      invariant forall k :: j <= k < i ==> Abs(a.data[k][j]) <= t
      invariant forall k :: j <= k < jp ==> Abs(a.data[k][j]) < t
    {
      var ab := Abs(a.data[i][j]);
      if ab > t {
        jp := i;
        t := ab;
      }
    }
  }

  /** Column `j` below the pivot, divided by it. */
  method ScaleColumn(a: ArrayList, j: nat)
    requires a.Valid() && j < a.height && j < a.width && a.data[j][j] != 0.0
    modifies a
    ensures a.Valid()
    ensures forall i, c :: 0 <= i < a.height && 0 <= c < a.width ==>
              a.data[i][c] == if i > j && c == j then Mul(old(a.data)[i][j], 1.0 / old(a.data)[j][j])
                else old(a.data)[i][c]
  {
    hide Mul;
    var recp := 1.0 / a.data[j][j];
    for k := j + 1 to a.height
      invariant a.Valid()
      invariant forall i, c :: 0 <= i < a.height && 0 <= c < a.width ==>
                  a.data[i][c] == if j < i < k && c == j then Mul(old(a.data)[i][j], recp) else old(a.data)[i][c]
    {
      a.Set(k, j, Mul(a.data[k][j], recp));
    }
  }

  /** Row `ii` less its multiplier times the pivot row, right of column `j`. */
  method UpdateRow(a: ArrayList, j: nat, ii: nat)
    requires a.Valid() && j < ii < a.height && j < a.width
    modifies a
    ensures a.Valid()
    ensures forall i :: 0 <= i < a.height && i != ii ==> a.data[i] == old(a.data)[i]
    ensures forall c :: 0 <= c < a.width ==>
              a.data[ii][c] == if c > j then old(a.data)[ii][c] - Mul(old(a.data)[ii][j], old(a.data)[j][c])
                else old(a.data)[ii][c]
  {
    hide Mul;
    for jj := j + 1 to a.width
      invariant a.Valid()
      invariant forall i :: 0 <= i < a.height && i != ii ==> a.data[i] == old(a.data)[i]
      invariant forall c :: 0 <= c < a.width ==>
                  a.data[ii][c] == if j < c < jj then old(a.data)[ii][c] - Mul(old(a.data)[ii][j], old(a.data)[j][c])
                    else old(a.data)[ii][c]
    {
      a.Set(ii, jj, a.data[ii][jj] - Mul(a.data[ii][j], a.data[j][jj]));
    }
  }

  /** The outer product taken off all rows below. */
  method UpdateRows(a: ArrayList, j: nat)
    requires a.Valid() && j < a.height && j < a.width
    modifies a
    ensures a.Valid()
    ensures forall i, c :: 0 <= i < a.height && 0 <= c < a.width ==>
              a.data[i][c] == if i > j && c > j then old(a.data)[i][c] - Mul(old(a.data)[i][j], old(a.data)[j][c])
                else old(a.data)[i][c]
  {
    hide Mul;
    for ii := j + 1 to a.height
      invariant a.Valid()
      invariant forall i :: 0 <= i < a.height && !(j < i < ii) ==> a.data[i] == old(a.data)[i]
      invariant forall i, c :: j < i < ii && 0 <= c < a.width ==>
                  a.data[i][c] == if c > j then old(a.data)[i][c] - Mul(old(a.data)[i][j], old(a.data)[j][c])
                    else old(a.data)[i][c]
    {
      UpdateRow(a, j, ii);
    }
    forall i, c | 0 <= i < a.height && 0 <= c < a.width
      ensures a.data[i][c] == if i > j && c > j then old(a.data)[i][c] - Mul(old(a.data)[i][j], old(a.data)[j][c])
                else old(a.data)[i][c]
    {
      assert i <= j ==> a.data[i] == old(a.data)[i];
    }
  }

  /** The elimination of one column; the two guards skip loops with nothing to do. */
  method Eliminate(a: ArrayList, j: nat)
    requires a.Valid() && j < a.height && j < a.width && a.data[j][j] != 0.0
    modifies a
    ensures a.Valid() && Eliminated(a.data, old(a.data), a.height, a.width, j)
  {
    hide Mul;
    ghost var d := a.data;
    if j < a.height - 1 {
      ScaleColumn(a, j);
    }
    ghost var s := a.data;
    if j < Min(a.height, a.width) - 1 {
      UpdateRows(a, j);
    }
    forall i, c | 0 <= i < a.height && 0 <= c < a.width
      ensures EliminatedAt(a.data, d, a.height, a.width, j, i, c)
    {
      assert s[i][c] == if i > j && c == j then Mul(d[i][j], 1.0 / d[j][j]) else d[i][c];
      assert s[j][c] == d[j][c];
      assert i > j ==> s[i][j] == Mul(d[i][j], 1.0 / d[j][j]);
    }
  }

  /** Where the factorisation stops when it fails: all candidates of a column are zero. */
  ghost predicate Stuck(d: Rows, m: nat, n: nat, j: nat)
    requires Matrix(d, m, n)
  {
    j < m && j < n && forall i :: j <= i < m ==> d[i][j] == 0.0
  }

  /** LU_factor: None stands for the exception. `pivot` records the exchanges. */
  method LuFactor(a: ArrayList) returns (r: Option<seq<nat>>, ghost steps: nat, ghost pivots: seq<nat>)
    requires a.Valid()
    modifies a
    ensures a.Valid() && |pivots| == steps <= Min(a.height, a.width)
    ensures forall k :: 0 <= k < steps ==> k <= pivots[k] < a.height
    ensures Factored(a.data, Permuted(old(a.data), pivots, steps), a.height, a.width, steps)
    ensures Bounded(a.data, a.height, a.width, steps) && Regular(a.data, a.height, a.width, steps)
    ensures r.Some? ==> r.value == pivots && steps == Min(a.height, a.width)
    ensures r.None? ==> Stuck(a.data, a.height, a.width, steps)
  {
    ghost var start := a.data;
    var pivot: seq<nat> := [];
    StartFactored(start, a.height, a.width);
    hide Entry, Eliminated, Mul, Abs, Bounded;
    steps, pivots := 0, [];
    for j := 0 to Min(a.height, a.width)
      invariant a.Valid() && |pivot| == j == steps && pivots == pivot
      invariant forall k :: 0 <= k < j ==> k <= pivot[k] < a.height
      invariant Factored(a.data, Permuted(start, pivot, j), a.height, a.width, j) &&
                Bounded(a.data, a.height, a.width, j)
      invariant Regular(a.data, a.height, a.width, j)
    {
      var jp := FindPivot(a, j);
      if a.data[jp][j] == 0.0 {
        StuckHere(a.data, a.height, a.width, j, jp);
        r := None;
        return;
      }
      ghost var b := Permuted(start, pivot, j);
      SwapKeeps(a.data, b, a.height, a.width, j, jp);
      PermutedMore(start, pivot, jp);
      GreatestFirst(a.data, a.height, a.width, j, jp);
      pivot := pivot + [jp];
      a.data := Swapped(a.data, j, jp);
      ghost var d := a.data;
      assert Matrix(d, a.height, a.width);
      Eliminate(a, j);
      EliminationKeeps(a.data, d, Swapped(b, j, jp), a.height, a.width, j);
      EliminationBounded(a.data, d, a.height, a.width, j);
      RegularMore(a.data, d, a.height, a.width, j);
      steps, pivots := j + 1, pivot;
    }
    r := Some(pivot);
  }

  lemma StartFactored(d: Rows, m: nat, n: nat)
    requires Matrix(d, m, n)
    ensures Factored(d, Permuted(d, [], 0), m, n, 0) && Bounded(d, m, n, 0)
  {}

  lemma StuckHere(d: Rows, m: nat, n: nat, j: nat, jp: nat)
    requires Matrix(d, m, n) && j <= jp < m && j < n && d[jp][j] == 0.0
    requires forall i :: j <= i < m ==> Abs(d[i][j]) <= Abs(d[jp][j])
    ensures Stuck(d, m, n, j)
  {}

  lemma PermutedMore(d: Rows, pivot: seq<nat>, jp: nat)
    requires |pivot| < |d| && jp < |d| && forall k :: 0 <= k < |pivot| ==> pivot[k] < |d|
    ensures Permuted(d, pivot + [jp], |pivot| + 1) == Swapped(Permuted(d, pivot, |pivot|), |pivot|, jp)
  {
    PermutedPrefix(d, pivot, jp, |pivot|);
  }

  lemma {:induction false} PermutedPrefix(d: Rows, pivot: seq<nat>, jp: nat, j: nat)
    requires j <= |pivot| < |d| && jp < |d| && forall k :: 0 <= k < |pivot| ==> pivot[k] < |d|
    ensures Permuted(d, pivot + [jp], j) == Permuted(d, pivot, j)
  {
    if j != 0 { PermutedPrefix(d, pivot, jp, j - 1); }
  }

  lemma GreatestFirst(d: Rows, m: nat, n: nat, j: nat, jp: nat)
    requires Matrix(d, m, n) && j <= jp < m && j < n && d[jp][j] != 0.0
    requires forall i :: j <= i < m ==> Abs(d[i][j]) <= Abs(d[jp][j])
    ensures var e := Swapped(d, j, jp);
            Matrix(e, m, n) && e[j][j] != 0.0 && forall i :: j <= i < m ==> Abs(e[i][j]) <= Abs(e[j][j])
  {
    hide Abs;
  }

  // ---------- L times U ----------

  /** L and U as the result holds them. */
  function L(d: Rows, i: nat, k: nat): real
    requires i < |d| && k < |d[i]|
  {
    if k < i then d[i][k] else if k == i then 1.0 else 0.0
  }

  function U(d: Rows, k: nat, c: nat): real
    requires k < |d| && c < |d[k]|
  {
    if k <= c then d[k][c] else 0.0
  }

  /** Entry (i, c) of L times U, up to the `n`-th term. */
  function Product(d: Rows, i: nat, c: nat, n: nat): real
    requires i < |d| && n <= |d[i]| && n <= |d| && forall k :: 0 <= k < n ==> c < |d[k]|
  {
    if n == 0 then 0.0 else Product(d, i, c, n - 1) + Mul(L(d, i, n - 1), U(d, n - 1, c))
  }

  lemma UnitAndZero(x: real)
    ensures Mul(1.0, x) == x && Mul(0.0, x) == 0.0 && Mul(x, 0.0) == 0.0
  {}

  lemma {:induction false} ProductIsDot(d: Rows, i: nat, c: nat, n: nat)
    requires i < |d| && n <= |d[i]| && n <= |d| && forall k :: 0 <= k < n ==> c < |d[k]|
    requires n <= i && n <= c + 1
    ensures Product(d, i, c, n) == Dot(d, i, c, n)
  {
    if n != 0 { ProductIsDot(d, i, c, n - 1); }
  }

  /** Terms past the diagonal of L, or below the diagonal of U, are zero. */
  lemma {:induction false} ZeroTerms(d: Rows, i: nat, c: nat, from: nat, n: nat)
    requires i < |d| && n <= |d[i]| && n <= |d| && forall k :: 0 <= k < n ==> c < |d[k]|
    requires from <= n && (from > i || from > c)
    ensures Product(d, i, c, n) == Product(d, i, c, from)
    decreases n
  {
    if from < n {
      ZeroTerms(d, i, c, from, n - 1);
      UnitAndZero(L(d, i, n - 1));
      UnitAndZero(U(d, n - 1, c));
      hide Mul;
    }
  }

  /** When all columns are done, every entry of the permuted matrix is that of L times U. */
  lemma FactorsMultiply(d: Rows, b: Rows, m: nat, n: nat)
    requires Factored(d, b, m, n, Min(m, n))
    ensures forall i, c :: 0 <= i < m && 0 <= c < n ==> b[i][c] == Product(d, i, c, Min(m, n))
  {
    var t := Min(m, n);
    forall i, c | 0 <= i < m && 0 <= c < n
      ensures b[i][c] == Product(d, i, c, t)
    {
      assert Entry(d, b, m, n, t, i, c);
      var s := Min(i, t);
      hide Mul;
      if c < s {
        ProductIsDot(d, i, c, c);
        ZeroTerms(d, i, c, c + 1, t);
      } else if i < t {
        ProductIsDot(d, i, c, i);
        UnitAndZero(d[i][c]);
        ZeroTerms(d, i, c, i + 1, t);
      }
    }
  }

  /** The recorded exchanges only permute the rows. */
  lemma {:induction false} PermutedRows(d: Rows, pivot: seq<nat>, j: nat)
    requires j <= |pivot| && j <= |d| && forall k :: 0 <= k < |pivot| ==> pivot[k] < |d|
    ensures multiset(Permuted(d, pivot, j)) == multiset(d)
  {
    hide *;
    PermutedStep(d, pivot, j);
    if j != 0 {
      PermutedRows(d, pivot, j - 1);
      SwappedRows(Permuted(d, pivot, j - 1), j - 1, pivot[j - 1]);
    }
  }

  lemma PermutedStep(d: Rows, pivot: seq<nat>, j: nat)
    requires j <= |pivot| && j <= |d| && forall k :: 0 <= k < |pivot| ==> pivot[k] < |d|
    ensures Permuted(d, pivot, 0) == d
    ensures j > 0 ==>
              && |Permuted(d, pivot, j - 1)| == |d|
              && Permuted(d, pivot, j) == Swapped(Permuted(d, pivot, j - 1), j - 1, pivot[j - 1])
  {}

  lemma SwappedRows(d: Rows, a: nat, b: nat)
    requires a < |d| && b < |d|
    ensures multiset(Swapped(d, a, b)) == multiset(d)
  {}

  // ---------- when it fails ----------

  /** The first `t` terms of a row times a vector. */
  function Comb(row: seq<real>, x: seq<real>, t: nat): real
    requires t <= |row| && t <= |x|
  {
    if t == 0 then 0.0 else Comb(row, x, t - 1) + Mul(row[t - 1], x[t - 1])
  }

  /** The first `t` columns are linearly dependent. */
  ghost predicate Dependent(d: Rows, t: nat)
    requires forall i :: 0 <= i < |d| ==> t <= |d[i]|
  {
    exists x: seq<real> :: |x| == t && Vanishes(d, x, t) && exists c :: 0 <= c < t && x[c] != 0.0
  }

  ghost predicate Vanishes(d: Rows, x: seq<real>, t: nat)
    requires (forall i :: 0 <= i < |d| ==> t <= |d[i]|) && t <= |x|
  {
    forall i :: 0 <= i < |d| ==> Comb(d[i], x, t) == 0.0
  }

  lemma VanishesPermuted(d: Rows, b: Rows, x: seq<real>, t: nat, n: nat)
    requires multiset(b) == multiset(d) && t <= |x| && t <= n
    requires (forall i :: 0 <= i < |d| ==> |d[i]| == n) && forall i :: 0 <= i < |b| ==> |b[i]| == n
    ensures Vanishes(d, x, t) <==> Vanishes(b, x, t)
  {
    hide Comb;
    if Vanishes(d, x, t) { SameRows(d, b, x, t, n); }
    if Vanishes(b, x, t) { SameRows(b, d, x, t, n); }
  }

  lemma SameRows(d: Rows, b: Rows, x: seq<real>, t: nat, n: nat)
    requires multiset(b) == multiset(d) && t <= |x| && t <= n
    requires (forall i :: 0 <= i < |d| ==> |d[i]| == n) && forall i :: 0 <= i < |b| ==> |b[i]| == n
    requires Vanishes(d, x, t)
    ensures Vanishes(b, x, t)
  {
    hide Comb;
    forall i | 0 <= i < |b|
      ensures Comb(b[i], x, t) == 0.0
    {
      assert b[i] in multiset(b);
      assert b[i] in d;
      var k :| 0 <= k < |d| && d[k] == b[i];
    }
  }

  /** Row `k` of U times a vector. */
  function Upper(d: Rows, k: nat, x: seq<real>, t: nat): real
    requires k < |d| && t <= |d[k]| && t <= |x|
  {
    if t == 0 then 0.0 else Upper(d, k, x, t - 1) + Mul(U(d, k, t - 1), x[t - 1])
  }

  /** Row `i` of L, up to its `n`-th entry, times U times a vector. */
  function Lower(d: Rows, m: nat, w: nat, i: nat, x: seq<real>, t: nat, n: nat): real
    requires Matrix(d, m, w) && i < m && n <= m && n <= w && t <= w && t <= |x|
  {
    if n == 0 then 0.0 else Lower(d, m, w, i, x, t, n - 1) + Mul(L(d, i, n - 1), Upper(d, n - 1, x, t))
  }

  lemma Spread(a: real, b: real, c: real, x: real)
    ensures Mul(a + Mul(b, c), x) == Mul(a, x) + Mul(b, Mul(c, x))
    ensures Mul(b, a + x) == Mul(b, a) + Mul(b, x)
  {}

  /** Rows that are products of L and U, times a vector. */
  lemma {:induction false} CombIsLower(d: Rows, m: nat, w: nat, row: seq<real>, i: nat, x: seq<real>, t: nat, n: nat)
    requires Matrix(d, m, w) && i < m && n <= m && n <= w && t <= w == |row| && t <= |x|
    requires forall c :: 0 <= c < t ==> row[c] == Product(d, i, c, n)
    ensures Comb(row, x, t) == Lower(d, m, w, i, x, t, n)
  {
    if t == 0 {
      NoColumns(d, m, w, i, x, n);
    } else {
      CombIsLower(d, m, w, row, i, x, t - 1, n);
      hide Mul;
      LowerColumn(d, m, w, i, x, t, n);
    }
  }

  lemma {:induction false} NoColumns(d: Rows, m: nat, w: nat, i: nat, x: seq<real>, n: nat)
    requires Matrix(d, m, w) && i < m && n <= m && n <= w
    ensures Lower(d, m, w, i, x, 0, n) == 0.0
  {
    if n != 0 {
      NoColumns(d, m, w, i, x, n - 1);
      UnitAndZero(L(d, i, n - 1));
    }
  }

  lemma {:induction false} LowerColumn(d: Rows, m: nat, w: nat, i: nat, x: seq<real>, t: nat, n: nat)
    requires Matrix(d, m, w) && i < m && n <= m && n <= w && 0 < t <= w && t <= |x|
    ensures Lower(d, m, w, i, x, t, n) == Lower(d, m, w, i, x, t - 1, n) + Mul(Product(d, i, t - 1, n), x[t - 1])
  {
    if n == 0 {
      UnitAndZero(x[t - 1]);
    } else {
      LowerColumn(d, m, w, i, x, t, n - 1);
      hide Mul;
      Spread(Product(d, i, t - 1, n - 1), L(d, i, n - 1), U(d, n - 1, t - 1), x[t - 1]);
      Spread(Upper(d, n - 1, x, t - 1), L(d, i, n - 1), 0.0, Mul(U(d, n - 1, t - 1), x[t - 1]));
    }
  }

  /** Stopped at column `j`, every row's first `j + 1` entries are products of L and U. */
  lemma StuckProducts(d: Rows, b: Rows, m: nat, n: nat, j: nat, i: nat, c: nat)
    requires Factored(d, b, m, n, j) && i < m && c < n && (c < j || (c == j && Stuck(d, m, n, j)))
    ensures b[i][c] == Product(d, i, c, j)
  {
    assert Entry(d, b, m, n, j, i, c);
    var s := Min(i, j);
    hide Mul;
    if c < s {
      ProductIsDot(d, i, c, c);
      ZeroTerms(d, i, c, c + 1, j);
    } else if i < j {
      ProductIsDot(d, i, c, i);
      UnitAndZero(d[i][c]);
      ZeroTerms(d, i, c, i + 1, j);
    } else {
      ProductIsDot(d, i, c, j);
    }
  }

  lemma {:induction false} UpperUpdate(d: Rows, k: nat, x: seq<real>, p: nat, v: real, t: nat)
    requires k < |d| && t <= |d[k]| && t <= |x| && p < |x| && x[p] == 0.0
    ensures Upper(d, k, x[p := v], t) == Upper(d, k, x, t) + if p < t then Mul(U(d, k, p), v) else 0.0
  {
    if t != 0 {
      UpperUpdate(d, k, x, p, v, t - 1);
      if t - 1 == p { UnitAndZero(U(d, k, p)); }
      hide Mul;
    }
  }

  lemma Cancel(s: real, p: real)
    requires p != 0.0
    ensures s + Mul(p, -s / p) == 0.0
  {}

  /** U takes the vector to zero in the rows from `from` up to `to`. */
  ghost predicate Annihilated(d: Rows, x: seq<real>, from: nat, to: nat, t: nat)
    requires to <= |d| && t <= |x| && forall k :: 0 <= k < |d| ==> t <= |d[k]|
  {
    forall k :: from <= k < to ==> Upper(d, k, x, t) == 0.0
  }

  /** Back substitution: a vector that U takes to zero, with a one at its end. */
  lemma BackSubstitute(d: Rows, m: nat, n: nat, j: nat) returns (x: seq<real>)
    requires Matrix(d, m, n) && Regular(d, m, n, j) && j < n
    ensures |x| == j + 1 && x[j] == 1.0 && Annihilated(d, x, 0, j, j + 1)
  {
    hide Mul, Upper;
    x := seq(j + 1, i => if i == j then 1.0 else 0.0);
    var k := j;
    while k > 0
      invariant 0 <= k <= j && |x| == j + 1 && x[j] == 1.0
      invariant forall c :: 0 <= c < k ==> x[c] == 0.0
      invariant Annihilated(d, x, k, j, j + 1)
    {
      k := k - 1;
      var s := Upper(d, k, x, j + 1);
      var y := x[k := -s / d[k][k]];
      OneRowMore(d, x, y, k, j, j + 1);
      x := y;
    }
  }

  lemma OneRowMore(d: Rows, x: seq<real>, y: seq<real>, k: nat, j: nat, t: nat)
    requires j <= |d| && (forall r :: 0 <= r < |d| ==> t <= |d[r]|) && k < j < t && t <= |x| && x[k] == 0.0 &&
             d[k][k] != 0.0
    requires Annihilated(d, x, k + 1, j, t) && y == x[k := -Upper(d, k, x, t) / d[k][k]]
    ensures Annihilated(d, y, k, j, t)
  {
    hide Mul, Upper;
    var v := -Upper(d, k, x, t) / d[k][k];
    Cancel(Upper(d, k, x, t), d[k][k]);
    forall r | k <= r < j
      ensures Upper(d, r, y, t) == 0.0
    {
      UpperUpdate(d, r, x, k, v, t);
      UnitAndZero(v);
    }
  }

  lemma {:induction false} LowerVanishes(d: Rows, m: nat, w: nat, i: nat, x: seq<real>, t: nat, n: nat)
    requires Matrix(d, m, w) && i < m && n <= m && n <= w && t <= w && t <= |x|
    requires forall k :: 0 <= k < n ==> Upper(d, k, x, t) == 0.0
    ensures Lower(d, m, w, i, x, t, n) == 0.0
  {
    if n != 0 {
      LowerVanishes(d, m, w, i, x, t, n - 1);
      UnitAndZero(L(d, i, n - 1));
    }
  }

  lemma {:induction false} CombPadded(row: seq<real>, x: seq<real>, y: seq<real>, s: nat, t: nat)
    requires s <= t <= |row| && s <= |x| && t <= |y|
    requires (forall c :: 0 <= c < s ==> y[c] == x[c]) && forall c :: s <= c < t ==> y[c] == 0.0
    ensures Comb(row, y, t) == Comb(row, x, s)
    decreases t
  {
    if s < t {
      CombPadded(row, x, y, s, t - 1);
      UnitAndZero(row[t - 1]);
    } else if t != 0 {
      CombPadded(row, x, y, s - 1, t - 1);
    }
  }

  /** Stopping means that the columns so far and the next are dependent. */
  lemma StuckIsDependent(d: Rows, b: Rows, m: nat, n: nat, j: nat)
    requires Factored(d, b, m, n, j) && Regular(d, m, n, j) && Stuck(d, m, n, j)
    ensures Dependent(b, Min(m, n))
  {
    hide Mul, Comb, Upper, Lower;
    var t := Min(m, n);
    var x := BackSubstitute(d, m, n, j);
    var y := x + seq(t - (j + 1), _ => 0.0);
    forall i | 0 <= i < |b|
      ensures Comb(b[i], y, t) == 0.0
    {
      forall c | 0 <= c < j + 1
        ensures b[i][c] == Product(d, i, c, j)
      {
        StuckProducts(d, b, m, n, j, i, c);
      }
      CombIsLower(d, m, n, b[i], i, x, j + 1, j);
      LowerVanishes(d, m, n, i, x, j + 1, j);
      CombPadded(b[i], x, y, j + 1, t);
    }
    assert y[j] != 0.0;
    assert Vanishes(b, y, t);
  }

  /** With L's unit diagonal, a vector it takes to zero is zero. */
  lemma {:induction false} LowerForces(d: Rows, m: nat, w: nat, x: seq<real>, t: nat, n: nat)
    requires Matrix(d, m, w) && n <= m && n <= w && t <= w && t <= |x|
    requires forall i :: 0 <= i < n ==> Lower(d, m, w, i, x, t, Min(m, w)) == 0.0
    ensures forall k :: 0 <= k < n ==> Upper(d, k, x, t) == 0.0
  {
    if n != 0 {
      LowerForces(d, m, w, x, t, n - 1);
      var i := n - 1;
      LowerShort(d, m, w, i, x, t, n, Min(m, w));
      LowerVanishes(d, m, w, i, x, t, i);
      UnitAndZero(Upper(d, i, x, t));
    }
  }

  lemma {:induction false} LowerShort(d: Rows, m: nat, w: nat, i: nat, x: seq<real>, t: nat, from: nat, n: nat)
    requires Matrix(d, m, w) && i < from <= n <= m && n <= w && t <= w && t <= |x|
    ensures Lower(d, m, w, i, x, t, n) == Lower(d, m, w, i, x, t, from)
    decreases n
  {
    if from < n {
      LowerShort(d, m, w, i, x, t, from, n - 1);
      UnitAndZero(Upper(d, n - 1, x, t));
    }
  }

  lemma {:induction false} OnlyDiagonal(d: Rows, k: nat, x: seq<real>, t: nat)
    requires k < |d| && t <= |d[k]| && t <= |x| && forall c :: k < c < t ==> x[c] == 0.0
    ensures Upper(d, k, x, t) == if k < t then Mul(d[k][k], x[k]) else 0.0
  {
    if t != 0 {
      OnlyDiagonal(d, k, x, t - 1);
      UnitAndZero(x[t - 1]);
      UnitAndZero(U(d, k, t - 1));
      hide Mul;
    }
  }

  lemma NoZeroDivisors(p: real, x: real)
    requires p != 0.0 && Mul(p, x) == 0.0
    ensures x == 0.0
  {}

  /** With the pivots not zero, so is a vector that U takes to zero. */
  lemma UpperForces(d: Rows, m: nat, n: nat, x: seq<real>, t: nat)
    requires Matrix(d, m, n) && Regular(d, m, n, t) && t <= |x|
    requires forall k :: 0 <= k < t ==> Upper(d, k, x, t) == 0.0
    ensures forall c :: 0 <= c < t ==> x[c] == 0.0
  {
    hide Mul, Upper;
    var k := t;
    while k > 0
      invariant 0 <= k <= t && forall c :: k <= c < t ==> x[c] == 0.0
    {
      k := k - 1;
      OnlyDiagonal(d, k, x, t);
      NoZeroDivisors(d[k][k], x[k]);
    }
  }

  /** A finished factorisation means that the columns are independent. */
  lemma DoneIsIndependent(d: Rows, b: Rows, m: nat, n: nat)
    requires Factored(d, b, m, n, Min(m, n)) && Regular(d, m, n, Min(m, n))
    ensures !Dependent(b, Min(m, n))
  {
    hide Mul, Comb, Upper, Lower;
    var t := Min(m, n);
    forall x: seq<real> | |x| == t && Vanishes(b, x, t)
      ensures forall c :: 0 <= c < t ==> x[c] == 0.0
    {
      forall i | 0 <= i < t
        ensures Lower(d, m, n, i, x, t, t) == 0.0
      {
        forall c | 0 <= c < t
          ensures b[i][c] == Product(d, i, c, t)
        {
          StuckProducts(d, b, m, n, t, i, c);
        }
        CombIsLower(d, m, n, b[i], i, x, t, t);
      }
      LowerForces(d, m, n, x, t, t);
      UpperForces(d, m, n, x, t);
    }
  }

  lemma Verdict(start: Rows, d: Rows, m: nat, n: nat, steps: nat, pivots: seq<nat>)
    requires Matrix(start, m, n) && |pivots| == steps <= Min(m, n) && forall k :: 0 <= k < steps ==> pivots[k] < m
    requires Factored(d, Permuted(start, pivots, steps), m, n, steps) && Regular(d, m, n, steps)
    ensures steps == Min(m, n) ==> !Dependent(start, Min(m, n))
    ensures Stuck(d, m, n, steps) ==> Dependent(start, Min(m, n))
  {
    PermutedRows(start, pivots, steps);
    hide Permuted, Entry, Dependent;
    var b := Permuted(start, pivots, steps);
    DependentPermuted(start, b, m, n, Min(m, n));
    if steps == Min(m, n) { DoneIsIndependent(d, b, m, n); }
    if Stuck(d, m, n, steps) { StuckIsDependent(d, b, m, n, steps); }
  }

  lemma DependentPermuted(d: Rows, b: Rows, m: nat, n: nat, t: nat)
    requires Matrix(d, m, n) && Matrix(b, m, n) && multiset(b) == multiset(d) && t <= n
    ensures Dependent(d, t) <==> Dependent(b, t)
  {
    hide Vanishes;
    forall x: seq<real> | |x| == t
      ensures Vanishes(d, x, t) <==> Vanishes(b, x, t)
    {
      VanishesPermuted(d, b, x, t, n);
    }
  }

  /** LU_factor on any matrix: if it returns, the rows permuted by the recorded pivots are L times U,
      with no multiplier above one; it raises just when the first columns, as many as there are to
      eliminate, are linearly dependent. */
  method Factor(a: ArrayList) returns (r: Option<seq<nat>>)
    requires a.Valid()
    modifies a
    ensures a.Valid()
    ensures r.Some? ==> |r.value| == Min(a.height, a.width) && forall k :: 0 <= k < |r.value| ==>
              k <= r.value[k] < a.height
    ensures r.Some? ==> Matrix(Permuted(old(a.data), r.value, |r.value|), a.height, a.width)
    ensures r.Some? ==>
      forall i, c :: 0 <= i < a.height && 0 <= c < a.width ==>
        Permuted(old(a.data), r.value, |r.value|)[i][c] == Product(a.data, i, c, |r.value|)
    ensures r.Some? ==> forall i, k :: 0 <= i < a.height && 0 <= k < a.width && k < |r.value| ==>
              Abs(L(a.data, i, k)) <= 1.0
    ensures r.None? <==> Dependent(old(a.data), Min(a.height, a.width))
    ensures r.None? ==> exists j :: Stuck(a.data, a.height, a.width, j)
  {
    ghost var steps, pivots;
    r, steps, pivots := LuFactor(a);
    Verdict(old(a.data), a.data, a.height, a.width, steps, pivots);
    hide Dependent;
    if r.Some? {
      FactorsMultiply(a.data, Permuted(old(a.data), r.value, steps), a.height, a.width);
      hide Entry, Product, Permuted, Factored;
      forall i, k | 0 <= i < a.height && 0 <= k < a.width && k < |r.value|
        ensures Abs(L(a.data, i, k)) <= 1.0
      {
      }
    }
  }
}
