/** Optional values: a JavaScript `null` / `undefined` becomes `None`. */
module Wrappers {

  datatype Option<+T> = None | Some(value: T)

  /** A computation that may fail with an error instead of returning. */
  datatype Result<+R, +E> = Success(value: R) | Failure(error: E)

  /** Concatenation regroups; proofs that split a sequence use it as a hint. */
  lemma Associative<T>(a: seq<T>, b: seq<T>, c: seq<T>)
    ensures a + b + c == a + (b + c)
  {
  }
}
