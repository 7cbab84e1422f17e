/** Small failure-carrying datatypes shared by every module of the model. */
module Wrappers {

  /** A value that may be missing (PHP's `null`, an absent array key, a failed lookup). */
  datatype Option<+T> = None | Some(value: T)

  /** A computation that either produced a value or raised an error. */
  datatype Result<+R, +E> = Success(value: R) | Failure(error: E)

  /** A computation without a value that either passed or raised an error. */
  datatype Outcome<+E> = Pass | Fail(error: E)
}
