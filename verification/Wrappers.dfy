/** A value or nothing, and what becomes of a call. */
module Wrappers {
  datatype Option<T> = None | Some(value: T)

  /** An error is returned, a panic is not. */
  datatype Result<+T> = Ok(value: T) | Error | Panic
}
