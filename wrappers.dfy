/** Failure-carrying values used throughout the model in place of Go's `error` returns. */
module Wrappers {

  datatype Option<T> = None | Some(value: T)

  /** A value, or the error that prevented computing it (Go's `(T, error)` pair). */
  datatype Result<T, E> = Success(value: T) | Failure(error: E)

  /** Success without a value, or an error (Go's bare `error` return). */
  datatype Outcome<E> = Pass | Fail(error: E)
}
