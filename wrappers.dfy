/** Optional values and results shared by every module of the model. */
module Wrappers {

  /** A JavaScript value that may be `undefined` (or `null`, or NaN for a number). */
  datatype Option<T> = None | Some(value: T)

  /** The outcome of a store operation that can fail. */
  datatype Result<T, E> = Ok(value: T) | Err(error: E)
}
