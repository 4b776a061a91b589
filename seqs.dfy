/** Small facts about sequence concatenation, shared by the other modules. */
module Seqs {
  lemma EmptyBefore<T>(a: seq<T>)
    ensures [] + a == a
  {
  }

  lemma AppendAssoc<T>(a: seq<T>, b: seq<T>, c: seq<T>)
    ensures a + b + c == a + (b + c)
  {
  }
}
