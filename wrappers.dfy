/** Failure-carrying values used across the model in place of Go's (value, error) pairs and nil pointers. */
module Wrappers {

  /** A possibly-absent value: a nil pointer or a failed parse. */
  datatype Option<+T> = None | Some(value: T)

  /** Either a value or a tagged error. */
  datatype Result<+T, +E> = Success(value: T) | Failure(error: E)

  /** Success or a tagged error, for operations that return only an error. */
  datatype Outcome<+E> = Pass | Fail(error: E)
}
