/** Optional values and results, used across the model. */
module Wrappers {

  /** A value that may be absent (JavaScript's `undefined`, or NaN for a failed number parse). */
  datatype Option<+T> = None | Some(value: T)

  /** The outcome of an operation that throws on bad input. */
  datatype Result<+R, +E> = Success(value: R) | Failure(error: E)
}
