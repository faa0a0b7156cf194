/** Facts about sequences that the proofs of several modules share. */
module Seqs {

  /** Concatenation is associative; stated as a lemma so a proof can name the regrouping it needs. */
  lemma AppendAssoc<T>(a: seq<T>, b: seq<T>, c: seq<T>)
    ensures (a + b) + c == a + (b + c)
  {
  }
}
