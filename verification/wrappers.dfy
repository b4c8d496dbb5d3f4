/** Option, result and outcome types used across the model. */
module Wrappers {

  /** A lookup that may find nothing (Mongo's `findOne`/`findById` answering null). */
  datatype Option<+T> = None | Some(value: T)

  /** A handler that either produces a value or fails with an error kind. */
  datatype Result<+T, +E> = Success(value: T) | Failure(error: E)

  /** A handler whose only observable result is success or an error kind. */
  datatype Outcome<+E> = Pass | Fail(error: E)
}
