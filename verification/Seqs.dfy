/** Facts about concatenation that spare other proofs the theory of sequences. */
module Seqs {

  lemma Associates<T>(a: seq<T>, b: seq<T>, c: seq<T>)
    ensures a + (b + c) == (a + b) + c
  {
  }

  /** The first element and the tail of a concatenation. */
  lemma Heads<T>(a: seq<T>, b: seq<T>)
    requires a != []
    ensures a + b != [] && (a + b)[0] == a[0] && (a + b)[1..] == a[1..] + b
  {
  }

  lemma NothingBefore<T>(b: seq<T>)
    ensures [] + b == b
  {
  }

  /** All but the last element, and the last, of a list that was appended to. */
  lemma Appended<T>(s: seq<T>, x: T)
    ensures var t := s + [x]; |t| > 0 && t[..|t| - 1] == s && t[|t| - 1] == x
  {
  }
}
