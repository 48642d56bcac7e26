/** Optional values and results shared by the other modules. */
module Wrappers {

  /** A value that may be absent (the source's `undefined` / `null`). */
  datatype Option<+T> = None | Some(value: T)

  /** A computation that either produces a value or raises an error. */
  datatype Result<+T, +E> = Ok(value: T) | Err(error: E)
}
