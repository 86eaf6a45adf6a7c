/** Searching a sequence, shared by the association lists and the label parser. */
module Sequences {

  /** The first position holding `x`, or |xs| when there is none. */
  function IndexOf<T(==)>(xs: seq<T>, x: T): (k: nat)
    ensures k <= |xs|
    ensures k < |xs| ==> xs[k] == x
    ensures forall i :: 0 <= i < k ==> xs[i] != x
  {
    if xs == [] then 0 else if xs[0] == x then 0 else 1 + IndexOf(xs[1..], x)
  }

  /** The search finds a position exactly when the element is present. */
  lemma IndexOfFound<T>(xs: seq<T>, x: T)
    ensures IndexOf(xs, x) < |xs| <==> x in xs
  {
  }
}
