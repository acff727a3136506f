/** Optional values and results shared by every module of the model. */
module Wrappers {

  /** A JavaScript value that may be `undefined`/`null` (None) or present (Some). */
  datatype Option<+T> = None | Some(value: T)

  /** The outcome of an operation that may throw: `Ok` or `Err` with the error message. */
  datatype Result<+T, +E> = Ok(value: T) | Err(error: E)
}
