/** What several components share: optional values, and associativity spelled out for the verifier. */
module Wrappers {

  datatype Option<+T> = None | Some(value: T)

  lemma Regroup<T>(a: seq<T>, b: seq<T>, c: seq<T>)
    ensures a + (b + c) == a + b + c
  {
  }

  lemma EmptyTail<T>(x: seq<T>)
    ensures x + [] == x
  {
  }

  lemma EmptyFront<T>(x: seq<T>)
    ensures [] + x == x
  {
  }
}
