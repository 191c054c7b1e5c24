/** Sequence identities, kept apart so that proofs about long formulas need not rediscover them. */
module Sequences {

  lemma MoveHead<T>(s: seq<T>, t: seq<T>)
    requires t != []
    ensures s + [t[0]] + t[1..] == s + t
  {
  }

  lemma LeftUnit<T>(s: seq<T>)
    ensures [] + s == s
  {
  }

  lemma RightUnit<T>(s: seq<T>)
    ensures s + [] == s
  {
  }
}
