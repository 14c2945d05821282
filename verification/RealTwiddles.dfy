/** The twiddle factors of a real plan, all taken from the half of the table that was filled. */
module RealTwiddles {
  import opened Complexes
  import opened SinCos

  function Mul3(a: nat, b: nat, c: nat): nat { a * (b * c) }

  function Rows(j: nat, w: nat): nat { j * w }

  lemma RowsNext(j: nat, w: nat)
    ensures Rows(0, w) == 0 && Rows(j + 1, w) == Rows(j, w) + w
  {}

  lemma RowsOrder(a: nat, b: nat, w: nat)
    requires a <= b
    ensures Rows(a, w) <= Rows(b, w)
  {}

  lemma Mul3Order(l1: nat, a: nat, b: nat, c: nat, d: nat)
    requires a <= b && c <= d
    ensures Mul3(l1, a, c) <= Mul3(l1, b, d)
  {
    assert a * c <= b * c <= b * d;
    var x, y := a * c, b * d;
    assert l1 * x <= l1 * y;
  }

  lemma Mul3Double(l1: nat, j: nat, i: nat)
    ensures Mul3(l1, j, 2 * i) == 2 * Mul3(l1, j, i)
  {
    var x := j * i;
    assert j * (2 * i) == 2 * x;
    assert l1 * (2 * x) == 2 * (l1 * x);
  }

  lemma Mul3Strict(l1: nat, ip: nat, ido: nat)
    requires l1 > 0 && ip > 1 && ido > 1
    ensures Mul3(l1, ip - 1, ido - 1) < Mul3(l1, ip, ido)
  {
    var x, y := (ip - 1) * (ido - 1), ip * ido;
    assert y == x + ip + ido - 1;
    assert l1 * y == l1 * x + l1 * (ip + ido - 1);
    assert l1 * (ip + ido - 1) > 0;
  }

  /** A twiddle factor of any pass is read from below half a turn. */
  lemma TwiddleInHalf(n: nat, l1: nat, ip: nat, ido: nat, j: nat, i: nat)
    requires n == Mul3(l1, ip, ido) && l1 > 0 && 0 < j < ip && 0 < i && 2 * i <= ido - 1
    ensures 2 * Mul3(l1, j, i) < n
  {
    Mul3Double(l1, j, i);
    Mul3Order(l1, j, ip - 1, 2 * i, ido - 1);
    Mul3Strict(l1, ip, ido);
    hide Mul3;
  }

  /** A root for the generic pass, whose radix is odd, is read from below half a turn. */
  lemma RootInHalf(ip: nat, m: nat, i: nat)
    requires ip % 2 == 1 && i <= ip / 2 && m > 0
    ensures 2 * Rows(i, m) < Rows(ip, m)
  {
    assert 2 * i < ip;
    RowsNext(2 * i, m);
    RowsOrder(2 * i + 1, ip, m);
    assert Rows(2 * i, m) == 2 * Rows(i, m);
    hide Rows;
  }

  /** Factor (j, i) of a pass stands in its place. */
  ghost predicate Factor(turn: real -> Complex, n: nat, mem: array<real>, tw: nat, l1: nat, ido: nat, j: nat, i: nat)
    requires n > 0 && 0 < j && 0 < i && 0 < ido
    reads mem
  {
    Holds(mem, tw + Rows(j - 1, ido - 1) + 2 * i - 2, Entry(turn, Mul3(l1, j, i), n))
  }

  /** The factors before (j, i), row by row. */
  ghost predicate FactorsTo(turn: real -> Complex, n: nat, mem: array<real>, tw: nat, l1: nat, ido: nat, j: nat, i: nat)
    requires n > 0 && 0 < ido
    reads mem
  {
    && (forall a: nat, b: nat :: 0 < a < j && 0 < b && 2 * b <= ido - 1 ==> Factor(turn, n, mem, tw, l1, ido, a, b))
    && (forall b: nat :: 0 < b < i && 2 * b <= ido - 1 && 0 < j ==> Factor(turn, n, mem, tw, l1, ido, j, b))
  }

  /** One factor is copied out of the filled half. */
  method CopyFactor(turn: real -> Complex, n: nat, twid: array<real>, mem: array<real>, tw: nat, l1: nat, ip: nat,
                    ido: nat, j: nat, i: nat)
    requires n > 0 && twid != mem && Table(turn, n, twid, 0, 0, (n + 1) / 2)
    requires n == Mul3(l1, ip, ido) && l1 > 0 && 0 < j < ip && 0 < i && 2 * i <= ido - 1
    requires tw + Rows(ip - 1, ido - 1) <= mem.Length && FactorsTo(turn, n, mem, tw, l1, ido, j, i)
    modifies mem
    ensures FactorsTo(turn, n, mem, tw, l1, ido, j, i + 1)
    ensures forall k :: 0 <= k < mem.Length && !(tw <= k < tw + Rows(ip - 1, ido - 1)) ==> mem[k] == old(mem[k])
  {
    TwiddleInHalf(n, l1, ip, ido, j, i);
    RowsNext(j - 1, ido - 1);
    RowsOrder(j, ip - 1, ido - 1);
    hide Entry, Rows, Mul3;
    assert Holds(twid, 0 + 2 * Mul3(l1, j, i), Entry(turn, Mul3(l1, j, i), n));
    var at := tw + Rows(j - 1, ido - 1) + 2 * i - 2;
    StorePair(mem, at, Complex(twid[2 * Mul3(l1, j, i)], twid[2 * Mul3(l1, j, i) + 1]));
    forall a: nat, b: nat | (0 < a < j && 0 < b && 2 * b <= ido - 1) || (a == j && 0 < b < i + 1 && 2 * b <= ido - 1)
      ensures Factor(turn, n, mem, tw, l1, ido, a, b)
    {
      if a < j {
        RowsNext(a - 1, ido - 1);
        RowsOrder(a, j - 1, ido - 1);
        assert old(Factor(turn, n, mem, tw, l1, ido, a, b));
      } else if b < i {
        assert old(Factor(turn, n, mem, tw, l1, ido, j, b));
      }
    }
  }

  /** The two loops of rfftp_comp_twiddle that fill the factors of a pass: they read the table's
      first half only, which is all that sincos_2pibyn_half fills. */
  method FillRealTwiddles(turn: real -> Complex, n: nat, twid: array<real>, mem: array<real>, tw: nat, l1: nat, ip: nat,
                          ido: nat)
    requires n > 0 && twid != mem && Table(turn, n, twid, 0, 0, (n + 1) / 2)
    requires n == Mul3(l1, ip, ido) && l1 > 0 && ip > 1 && ido > 0
    requires tw + Rows(ip - 1, ido - 1) <= mem.Length
    modifies mem
    ensures FactorsTo(turn, n, mem, tw, l1, ido, ip, 0)
    ensures forall k :: 0 <= k < mem.Length && !(tw <= k < tw + Rows(ip - 1, ido - 1)) ==> mem[k] == old(mem[k])
  {
    hide Entry, Rows, Mul3, Table, Factor;
    for j := 1 to ip
      invariant FactorsTo(turn, n, mem, tw, l1, ido, j, 0)
      invariant forall k :: 0 <= k < mem.Length && !(tw <= k < tw + Rows(ip - 1, ido - 1)) ==> mem[k] == old(mem[k])
    {
      for i := 1 to (ido - 1) / 2 + 1
        invariant FactorsTo(turn, n, mem, tw, l1, ido, j, i)
        invariant forall k :: 0 <= k < mem.Length && !(tw <= k < tw + Rows(ip - 1, ido - 1)) ==> mem[k] == old(mem[k])
      {
        CopyFactor(turn, n, twid, mem, tw, l1, ip, ido, j, i);
      }
    }
  }

  /** The roots below `i` and their mirror images, of the generic pass. */
  ghost predicate RootsTo(turn: real -> Complex, ip: nat, mem: array<real>, tws: nat, i: nat)
    requires ip > 0
    reads mem
  {
    && Holds(mem, tws, ONE)
    && forall k: nat :: 0 < k < i ==> MirrorPair(turn, ip, mem, tws, k)
  }

  ghost predicate MirrorPair(turn: real -> Complex, ip: nat, mem: array<real>, tws: nat, k: nat)
    requires ip > 0
    reads mem
  {
    Holds(mem, tws + 2 * k, Entry(turn, k, ip)) && Holds(mem, tws + 2 * (ip - k), Entry(turn, ip - k, ip))
  }

  lemma RootEntry(turn: real -> Complex, ip: nat, m: nat, i: nat)
    requires ip > 0 && m > 0
    ensures Rows(ip, m) > 0 && Entry(turn, Rows(i, m), Rows(ip, m)) == Entry(turn, i, ip)
  {
    EntryScale(turn, i, ip, m);
    assert m * i == Rows(i, m) && m * ip == Rows(ip, m);
    hide Entry;
  }

  /** The loop of rfftp_comp_twiddle that fills the roots of a generic pass, again out of the
      filled half: the other half is its mirror image. */
  method FillRealRoots(turn: real -> Complex, n: nat, twid: array<real>, mem: array<real>, tws: nat, ip: nat, m: nat)
    requires Circle(turn) && n > 0 && twid != mem && Table(turn, n, twid, 0, 0, (n + 1) / 2)
    requires n == Rows(ip, m) && m > 0 && ip % 2 == 1 && tws + 2 * ip <= mem.Length
    modifies mem
    ensures RootsTo(turn, ip, mem, tws, ip / 2 + 1)
    ensures forall k :: 0 <= k < mem.Length && !(tws <= k < tws + 2 * ip) ==> mem[k] == old(mem[k])
  {
    hide Entry, Rows, Circle;
    StorePair(mem, tws, ONE);
    for i := 1 to ip / 2 + 1
      invariant RootsTo(turn, ip, mem, tws, i)
      invariant forall k :: 0 <= k < mem.Length && !(tws <= k < tws + 2 * ip) ==> mem[k] == old(mem[k])
    {
      CopyRoot(turn, n, twid, mem, tws, ip, m, i);
    }
  }

  /** One root and its mirror image. */
  method CopyRoot(turn: real -> Complex, n: nat, twid: array<real>, mem: array<real>, tws: nat, ip: nat, m: nat, i: nat)
    requires Circle(turn) && n > 0 && twid != mem && Table(turn, n, twid, 0, 0, (n + 1) / 2)
    requires n == Rows(ip, m) && m > 0 && ip % 2 == 1 && tws + 2 * ip <= mem.Length && 0 < i <= ip / 2
    requires RootsTo(turn, ip, mem, tws, i)
    modifies mem
    ensures RootsTo(turn, ip, mem, tws, i + 1)
    ensures forall k :: 0 <= k < mem.Length && !(tws <= k < tws + 2 * ip) ==> mem[k] == old(mem[k])
  {
    RootInHalf(ip, m, i);
    RootEntry(turn, ip, m, i);
    WholeEntries(turn, i, ip);
    hide Entry, Rows, Circle;
    assert Holds(twid, 0 + 2 * Rows(i, m), Entry(turn, Rows(i, m), n));
    var c, s := twid[2 * Rows(i, m)], twid[2 * Rows(i, m) + 1];
    StorePair(mem, tws + 2 * i, Complex(c, s));
    StorePair(mem, tws + 2 * (ip - i), Complex(c, -s));
    forall k: nat | 0 < k < i + 1
      ensures MirrorPair(turn, ip, mem, tws, k)
    {
      if k < i {
        assert old(MirrorPair(turn, ip, mem, tws, k));
      }
    }
  }
}
