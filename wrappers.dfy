/** Failure-carrying values shared by the other modules: a missing value, a
    value-or-error, and a pass-or-error outcome. */
module Wrappers {

  datatype Option<+T> = None | Some(value: T)

  datatype Result<+T, +E> = Success(value: T) | Failure(error: E)

  datatype Outcome<+E> = Pass | Fail(error: E)
}
