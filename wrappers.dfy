/** Failure-carrying results used for the store's `(value, error)` returns. */
module Wrappers {

  datatype Option<+T> = None | Some(value: T)

  /** A value or an error: Go's `(T, error)` pair with exactly one side set. */
  datatype Result<+T, +E> = Ok(value: T) | Err(error: E)

  /** Go's bare `error` return: nil (`Pass`) or an error (`Fail`). */
  datatype Outcome<+E> = Pass | Fail(error: E)
}
