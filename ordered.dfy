/**
 * JavaScript `Set` and `Map` keys iterate in insertion order; these helpers model a set
 * as the sequence of its elements in that order.
 */
module Ordered {
  predicate Distinct<T(==,!new)>(xs: seq<T>) {
    forall a, b :: 0 <= a < b < |xs| ==> xs[a] != xs[b]
  }

  /** `Set.add`, or `Map.set` on the key list: appended when new, left in place otherwise. */
  function AddOnce<T(==,!new)>(xs: seq<T>, x: T): (r: seq<T>)
    ensures x in r && forall y :: y in r <==> y in xs || y == x
    ensures Distinct(xs) ==> Distinct(r)
    ensures r == xs || r == xs + [x]
  {
    if x in xs then xs else xs + [x]
  }

  /** `new Set(xs)`: the elements of `xs` in order of first occurrence. */
  function Dedup<T(==,!new)>(xs: seq<T>): (r: seq<T>)
    ensures Distinct(r)
    ensures forall y :: y in r <==> y in xs
  {
    if xs == [] then [] else AddOnce(Dedup(xs[..|xs| - 1]), xs[|xs| - 1])
  }

  /** Concatenation regroups freely. */
  lemma AppendAssoc<T>(a: seq<T>, b: seq<T>, c: seq<T>)
    ensures (a + b) + c == a + (b + c)
  {
  }
}
