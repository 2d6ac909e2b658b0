/** Small facts and types used throughout. */
module Sequences {
  datatype Option<T> = Some(value: T) | None

  lemma Assoc<T>(a: seq<T>, b: seq<T>, c: seq<T>)
    ensures a + (b + c) == (a + b) + c
  {
  }
}
