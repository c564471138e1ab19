/** Failure-carrying wrappers shared by the whole model. */
module Wrappers {

  /** An optional value: Python's "attribute may be absent", Go's "no value". */
  datatype Option<+T> = None | Some(value: T)

  /** A value or the error that replaced it (a raised exception, a Go `error`). */
  datatype Result<+T, +E> = Ok(value: T) | Err(error: E)
}
