/** Optional values and results with an error, as used throughout the model. */
module Wrappers {

  /** A value that may be missing (JavaScript's `undefined` or `null`, or a failed search). */
  datatype Option<+T> = None | Some(value: T)

  /** Either a value or the error that was thrown instead of producing it. */
  datatype Result<+T, +E> = Ok(value: T) | Err(error: E)
}
