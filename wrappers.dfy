/** Optional values and results with an error, as used throughout the model. */
module Wrappers {

  /** A value that may be absent: a missing JSON field, a failed lookup, JavaScript's NaN. */
  datatype Option<+T> = None | Some(value: T)

  /** The outcome of an operation that may fail with an error value. */
  datatype Result<+T, +E> = Ok(value: T) | Err(error: E)
}
