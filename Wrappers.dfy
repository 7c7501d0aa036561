/** Failure-carrying values shared by the rest of the model. */
module Wrappers {

  datatype Option<+T> = None | Some(value: T)

  datatype Result<+R, +E> = Success(value: R) | Failure(error: E)

  /** The settled state of a promise that carries no value: fulfilled or rejected with an error. */
  datatype Outcome<+E> = Pass | Fail(error: E)
}
