/** Failure-carrying result types shared by the model. */
module Wrappers {

  datatype Option<+T> = None | Some(value: T)

  /** The value of an operation, or the message it fails with. */
  datatype Result<+T> = Success(value: T) | Failure(error: string)

  /** An operation that returns nothing, or the message it fails with. */
  datatype Outcome = Pass | Fail(error: string)
}
