/** Small sequence helpers shared by the models (reverse iteration, picking a key). */
module Seqs {

  /** The sequence read back to front, as `iter().rev()` yields it. */
  function Reversed<T>(s: seq<T>): (r: seq<T>)
    ensures |r| == |s|
    ensures forall i :: 0 <= i < |s| ==> r[i] == s[|s| - 1 - i]
  {
    if s == [] then [] else Reversed(s[1..]) + [s[0]]
  }

  /** A non-empty set has an element: what lets a loop take the next key of
      an unordered map. */
  lemma NonEmptyHasElement(s: set<int>)
    requires s != {}
    ensures exists x :: x in s
  {
    if forall x :: x !in s {
      assert false;
    }
  }

}
