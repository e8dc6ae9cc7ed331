/** Failure-carrying values: the model's stand-in for Python's `None` and for
    exceptions that propagate to the caller. */
module Wrappers {

  datatype Option<+T> = None | Some(value: T)

  /** A computation that either produced a value or raised an error. */
  datatype Result<+T, +E> = Success(value: T) | Failure(error: E)

  /** A check that either passed or raised an error (a Python function
      returning `None` or raising). */
  datatype Outcome<+E> = Pass | Fail(error: E)
}
