/** Failure-carrying result types shared by every module of the model. */
module Wrappers {

  /** A value that may be absent (a Go `(T, bool)` pair or a nil pointer). */
  datatype Option<+T> = None | Some(value: T)

  /** A value or an error (a Go `(T, error)` pair). */
  datatype Result<+T, +E> = Ok(value: T) | Err(error: E)

  /** A success or an error carrying no value (a Go `error` return). */
  datatype Outcome<+E> = Pass | Fail(error: E)
}
