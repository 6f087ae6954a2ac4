/** Sequences: removal, distinctness, and facts about slices and concatenations that proofs call by name. */
module Sequences {

  /** The sequence without the element at `i`. */
  function RemoveAt<T>(s: seq<T>, i: nat): (r: seq<T>)
    requires i < |s|
    ensures |r| == |s| - 1
  {
    s[..i] + s[i + 1..]
  }

  ghost predicate Distinct<T>(s: seq<T>) {
    forall i, j :: 0 <= i < j < |s| ==> s[i] != s[j]
  }

  lemma TakeDrop<T>(u: seq<T>, v: seq<T>)
    ensures (u + v)[..|u|] == u && (u + v)[|u|..] == v
  {
  }

  lemma ConsTail<T>(x: T, u: seq<T>)
    ensures ([x] + u)[0] == x && ([x] + u)[1..] == u
  {
  }

  lemma Assoc<T>(u: seq<T>, v: seq<T>, w: seq<T>)
    ensures u + (v + w) == u + v + w
  {
  }

  lemma MoveHead<T>(u: seq<T>, v: seq<T>)
    requires v != []
    ensures u + [v[0]] + v[1..] == u + v
  {
  }

  lemma NothingAround<T>(u: seq<T>)
    ensures [] + u == u && u + [] == u
  {
  }
}
