/** A law of sequences that proofs about texts and lists go back to. */
module Sequences {

  lemma Regroup<A>(a: seq<A>, b: seq<A>, c: seq<A>)
    ensures a + b + c == a + (b + c)
  {
  }
}
