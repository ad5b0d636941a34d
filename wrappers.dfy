/** Failure-compatible result types used to model Java's exceptions and nullable values. */
module Wrappers {

  /** A value that may be absent (`Optional`, or a nullable reference in Java). */
  datatype Option<+T> = None | Some(value: T)

  /** The value of an operation, or the exception it throws. */
  datatype Result<+R, +E> = Success(value: R) | Failure(error: E)

  /** The outcome of a check that returns nothing but may throw. */
  datatype Outcome<+E> = Pass | Fail(error: E)
}
