/** What the tables of section 3.2.5 of RFC 1951 are for: every distance and every length has its
    symbol and its extra bits. */
module CopyCodes {
  import opened Bits
  import opened Symbols

  // ---------- distances ----------

  /** The symbol and the extra bits mean distance `d`. */
  ghost predicate Distance(sym: nat, extra: nat, d: nat) {
    sym < 30 && extra < Pow2(DistBits(sym)) && DistBase(sym) + extra == d
  }

  /** From symbol 4 on, every second symbol takes one more bit. */
  lemma DistBitsAre(sym: nat)
    requires sym < 30
    ensures DistBits(sym) == if sym < 2 then 0 else sym / 2 - 1
  {}

  /** A symbol's distances begin where those of the symbol before it end. */
  lemma DistancesFollow(sym: nat)
    requires sym < 30
    ensures DistBase(sym) == if sym == 0 then 1 else DistBase(sym - 1) + Pow2(DistBits(sym - 1))
    ensures sym == 29 ==> DistBase(sym) + Pow2(DistBits(sym)) == 32769
  {
    Powers();
    hide Pow2;
  }

  lemma Powers()
    ensures Pow2(0) == 1 && Pow2(1) == 2 && Pow2(2) == 4 && Pow2(3) == 8 && Pow2(4) == 16 && Pow2(5) == 32
    ensures Pow2(6) == 64 && Pow2(7) == 128 && Pow2(8) == 256 && Pow2(9) == 512 && Pow2(10) == 1024
    ensures Pow2(11) == 2048 && Pow2(12) == 4096 && Pow2(13) == 8192
  {
    SmallPowersOfTwo();
    assert Pow2(8) == 2 * Pow2(7) && Pow2(9) == 2 * Pow2(8) && Pow2(10) == 2 * Pow2(9);
    assert Pow2(11) == 2 * Pow2(10) && Pow2(12) == 2 * Pow2(11) && Pow2(13) == 2 * Pow2(12);
  }

  /** The symbol of a distance among the first `n`. */
  lemma {:induction false} DistanceBelow(d: nat, n: nat) returns (sym: nat, extra: nat)
    requires n < 30 && 1 <= d < DistBase(n) + Pow2(DistBits(n))
    ensures sym <= n && Distance(sym, extra, d)
  {
    DistancesFollow(n);
    hide Pow2, DistBase, DistBits;
    if d >= DistBase(n) {
      sym, extra := n, d - DistBase(n);
    } else {
      sym, extra := DistanceBelow(d, n - 1);
    }
  }

  lemma {:induction false} DistancesOrdered(a: nat, b: nat)
    requires a < b < 30
    ensures DistBase(a) + Pow2(DistBits(a)) <= DistBase(b)
    decreases b
  {
    hide *;
    DistancesFollow(b);
    if a < b - 1 { DistancesOrdered(a, b - 1); }
  }

  /** A smaller distance has no larger symbol. */
  lemma DistancesMonotone(s: nat, e: nat, d: nat, s': nat, e': nat, d': nat)
    requires Distance(s, e, d) && Distance(s', e', d') && d <= d'
    ensures s <= s' && (d == d' ==> s == s' && e == e')
  {
    hide Pow2, DistBase, DistBits;
    if s' < s { DistancesOrdered(s', s); } else if s < s' { DistancesOrdered(s, s'); }
  }

  lemma DistanceRange(sym: nat, extra: nat, d: nat)
    requires Distance(sym, extra, d)
    ensures 1 <= d <= 32768
  {
    DistancesFollow(0);
    DistancesFollow(29);
    if sym > 0 { DistancesOrdered(0, sym); }
    if sym < 29 { DistancesOrdered(sym, 29); }
    hide Pow2, DistBase, DistBits;
  }

  /** Exactly the distances up to 32768 are coded, each in one way. */
  lemma DistanceCode(d: nat)
    ensures (exists sym, extra :: Distance(sym, extra, d)) <==> 1 <= d <= 32768
    ensures forall s, e, s', e' :: Distance(s, e, d) && Distance(s', e', d) ==> s == s' && e == e'
  {
    DistancesFollow(29);
    hide *;
    if 1 <= d <= 32768 {
      var sym, extra := DistanceBelow(d, 29);
    }
    forall sym: nat, extra: nat | Distance(sym, extra, d)
      ensures 1 <= d <= 32768
    {
      DistanceRange(sym, extra, d);
    }
    forall s: nat, e: nat, s': nat, e': nat | Distance(s, e, d) && Distance(s', e', d)
      ensures s == s' && e == e'
    {
      DistancesMonotone(s, e, d, s', e', d);
    }
  }

  // ---------- lengths ----------

  /** The symbol, less 257, and the extra bits mean length `n`. The standard leaves the last extra
      bits of symbol 27 unused. */
  ghost predicate Length(sym: nat, extra: nat, n: nat) {
    sym < 29 && extra < Pow2(LenBits(sym)) && LenBase(sym) + extra == n && !(sym == 27 && extra == 31)
  }

  /** From symbol 8 on, every fourth symbol takes one more bit, but the last symbol takes none. */
  lemma LenBitsAre(sym: nat)
    requires sym < 29
    ensures LenBits(sym) == if sym < 4 || sym == 28 then 0 else sym / 4 - 1
  {}

  lemma LengthsFollow(sym: nat)
    requires sym < 29
    ensures LenBase(sym) == if sym == 0 then 3 else if sym < 28 then LenBase(sym - 1) + Pow2(LenBits(sym - 1)) else 258
    ensures sym == 27 ==> LenBase(sym) + Pow2(LenBits(sym)) == 259 && Pow2(LenBits(sym)) == 32
    ensures sym == 28 ==> Pow2(LenBits(sym)) == 1
  {
    Powers();
    hide Pow2;
  }

  lemma {:induction false} LengthBelow(n: nat, k: nat) returns (sym: nat, extra: nat)
    requires k < 28 && 3 <= n < 258 && n < LenBase(k) + Pow2(LenBits(k))
    ensures sym <= k && Length(sym, extra, n)
  {
    LengthsFollow(k);
    hide Pow2, LenBase, LenBits;
    if n >= LenBase(k) {
      sym, extra := k, n - LenBase(k);
    } else {
      sym, extra := LengthBelow(n, k - 1);
    }
  }

  lemma {:induction false} LengthsOrdered(a: nat, b: nat)
    requires a < b < 28
    ensures LenBase(a) + Pow2(LenBits(a)) <= LenBase(b)
    decreases b
  {
    hide *;
    LengthsFollow(b);
    if a < b - 1 { LengthsOrdered(a, b - 1); }
  }

  /** Only the last symbol means length 258. */
  lemma LastLength(sym: nat, extra: nat, n: nat)
    requires Length(sym, extra, n)
    ensures 3 <= n <= 258 && (n == 258 <==> sym == 28) && (sym == 28 ==> extra == 0)
  {
    LengthsFollow(0);
    LengthsFollow(27);
    LengthsFollow(28);
    hide Pow2, LenBase, LenBits;
    if 0 < sym < 28 { LengthsOrdered(0, sym); }
    if sym < 27 { LengthsOrdered(sym, 27); }
  }

  lemma LengthsMonotone(s: nat, e: nat, n: nat, s': nat, e': nat, n': nat)
    requires Length(s, e, n) && Length(s', e', n') && n <= n'
    ensures s <= s' && (n == n' ==> s == s' && e == e')
  {
    LastLength(s, e, n);
    LastLength(s', e', n');
    hide Pow2, LenBase, LenBits;
    if s < 28 && s' < 28 {
      if s' < s { LengthsOrdered(s', s); } else if s < s' { LengthsOrdered(s, s'); }
    }
  }

  /** Exactly the lengths from 3 to 258 are coded, each in one way. */
  lemma LengthCode(n: nat)
    ensures (exists sym, extra :: Length(sym, extra, n)) <==> 3 <= n <= 258
    ensures forall s, e, s', e' :: Length(s, e, n) && Length(s', e', n) ==> s == s' && e == e'
  {
    LengthsFollow(27);
    LengthsFollow(28);
    hide Pow2, LenBase, LenBits;
    if n == 258 {
      assert Length(28, 0, n);
    } else if 3 <= n < 258 {
      var sym, extra := LengthBelow(n, 27);
    }
    forall sym: nat, extra: nat | Length(sym, extra, n)
      ensures 3 <= n <= 258
    {
      LastLength(sym, extra, n);
    }
    forall s: nat, e: nat, s': nat, e': nat | Length(s, e, n) && Length(s', e', n)
      ensures s == s' && e == e'
    {
      LengthsMonotone(s, e, n, s', e', n);
    }
  }

  /** Where the standard has no meaning, the tables have length 258 once more. */
  lemma UnusedLength()
    ensures 31 < Pow2(LenBits(27)) && LenBase(27) + 31 == LenBase(28) == 258
  {
    Powers();
  }

  // ---------- copies ----------

  /** Every copy within reach is the meaning of an item. */
  lemma CopyItem(out: seq<byte>, d: nat, n: nat)
    requires 1 <= d <= 32768 && d <= |out| && 3 <= n <= 258
    ensures exists lsym, lextra, dsym, dextra ::
              Length(lsym, lextra, n) && Distance(dsym, dextra, d) &&
              var item := Copy(lsym, lextra, dsym, dextra);
              Reaches(out, item) && Apply(out, item) == CopyBack(out, d, n)
  {
    LengthCode(n);
    DistanceCode(d);
    hide CopyBack, Pow2, LenBits, LenBase, DistBits, DistBase;
    var lsym, lextra :| Length(lsym, lextra, n);
    var dsym, dextra :| Distance(dsym, dextra, d);
    var item := Copy(lsym, lextra, dsym, dextra);
    assert Reaches(out, item) && Apply(out, item) == CopyBack(out, d, n);
  }

  /** Each byte a copy adds is the one `d` before it, which the copy may have added itself. */
  lemma {:induction false} CopiedByte(out: seq<byte>, d: nat, n: nat, i: nat)
    requires 0 < d <= |out| && |out| <= i < |out| + n
    ensures CopyBack(out, d, n)[i] == CopyBack(out, d, n)[i - d]
    decreases n
  {
    var next := out + [out[|out| - d]];
    if i == |out| {
      assert next <= CopyBack(next, d, n - 1);
      assert CopyBack(next, d, n - 1)[i] == next[i] && CopyBack(next, d, n - 1)[i - d] == next[i - d];
    } else {
      CopiedByte(next, d, n - 1, i);
    }
  }
}
