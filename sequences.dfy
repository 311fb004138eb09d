/** General facts about sequences that the proofs of the other modules share. */
module Sequences {

  /** Concatenation is associative. */
  lemma Associative<U>(a: seq<U>, b: seq<U>, c: seq<U>)
    ensures (a + b) + c == a + (b + c)
  {
  }
}
