/** Facts about sequences shared by the other modules. */
module Sequences {

  /** Concatenation regrouped; stated once so that proofs about concatenated pieces stay small. */
  lemma ConcatAssoc<T>(a: seq<T>, b: seq<T>, c: seq<T>)
    ensures a + (b + c) == (a + b) + c
  {
  }

  lemma EmptyConcat<T>(a: seq<T>)
    ensures [] + a == a
  {
  }
}
