/** Option and Result values, standing for JavaScript's `undefined` and for a
    promise that either resolves with a value or rejects with an error. */
module Wrappers {

  datatype Option<+T> = None | Some(value: T)

  datatype Result<+R, +E> = Success(value: R) | Failure(error: E)

  /** A promise that resolves with nothing or rejects with an error. */
  datatype Outcome<+E> = Pass | Fail(error: E)
}
