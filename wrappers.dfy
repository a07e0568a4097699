/** Failure-carrying return values: Go's `(value, error)` and bare `error` results. */
module Wrappers {

  datatype Option<+T> = None | Some(value: T)

  /** A value or an error: Go's `(*T, error)` where exactly one side is nil. */
  datatype Result<+T, +E> = Ok(value: T) | Err(error: E)

  /** Go's bare `error` result: nil (Pass) or an error value (Fail). */
  datatype Outcome<+E> = Pass | Fail(error: E)
}
