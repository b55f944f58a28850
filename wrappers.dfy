/** Option and Result, the error-carrying values used across the model, and one sequence fact the proofs share. */
module Wrappers {

  datatype Option<+T> = None | Some(value: T)

  datatype Result<+R, +E> = Ok(value: R) | Err(error: E)

  /** Regrouping a concatenation, kept out of larger proof contexts where the solver finds it slowly. */
  lemma AppendAssoc<T>(a: seq<T>, b: seq<T>, c: seq<T>)
    ensures a + (b + c) == (a + b) + c
  {
  }
}
