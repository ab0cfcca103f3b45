/** Optional values and error returns shared by the other modules. */
module Wrappers {

  /** A value that may be absent, as a null pointer is in jome. */
  datatype Option<+T> = None | Some(value: T)

  /** A computation that either succeeds with a value or fails with an error. */
  datatype Result<+T, +E> = Ok(value: T) | Err(error: E)
}
