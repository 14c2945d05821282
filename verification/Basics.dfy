/** What several programs share: sequences read backwards, and products as a function of their own. */
module Basics {

  function Reversed<T>(s: seq<T>): (r: seq<T>)
    ensures |r| == |s| && forall i :: 0 <= i < |s| ==> r[i] == s[|s| - 1 - i]
  {
    if s == [] then [] else Reversed(s[1..]) + [s[0]]
  }

  lemma ReversedElements<T>(s: seq<T>)
    ensures forall v :: v in Reversed(s) <==> v in s
  {
    forall v | v in s
      ensures v in Reversed(s)
    {
      var i :| 0 <= i < |s| && s[i] == v;
      assert Reversed(s)[|s| - 1 - i] == v;
    }
  }

  /** A product, named so that a proof can keep it closed. */
  function Prod(a: nat, b: nat): nat { a * b }

  lemma ProdNext(a: nat, b: nat)
    ensures Prod(0, b) == 0 && Prod(a + 1, b) == Prod(a, b) + b
  {}

  lemma ProdOrder(a: nat, b: nat, c: nat)
    requires a <= b
    ensures Prod(a, c) <= Prod(b, c)
  {}

  lemma ProdSwap(a: nat, b: nat)
    ensures Prod(a, b) == Prod(b, a)
  {}

  lemma ProdPositive(a: nat, b: nat)
    requires a > 0 && b > 0
    ensures Prod(a, b) > 0
  {}
}
