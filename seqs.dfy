/** Facts about sequence concatenation that the proofs cite by name. */
module Seqs {

  lemma AppendAssociative<T>(a: seq<T>, b: seq<T>, c: seq<T>)
    ensures a + (b + c) == (a + b) + c
  {
  }

  lemma AppendEmpty<T>(a: seq<T>)
    ensures [] + a == a && a + [] == a
  {
  }
}
