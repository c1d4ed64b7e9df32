/** Failure-carrying result types shared by the pipeline modules. */
module Wrappers {

  datatype Option<+T> = None | Some(value: T)

  datatype Result<+R, +E> = Success(value: R) | Failure(error: E)

  /** The outcome of a step that produces no value, only success or an error. */
  datatype Outcome<+E> = Pass | Fail(error: E)
}
