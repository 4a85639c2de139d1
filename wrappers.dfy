/** Failure-carrying result types shared by every module of the model. */
module Wrappers {

  /** A value that may be absent: used where the source raises on a failed lookup. */
  datatype Option<+T> = None | Some(value: T)

  /** A value or the reason it could not be produced: used where the source raises an exception. */
  datatype Result<+R, +E> = Success(value: R) | Failure(error: E)
}
