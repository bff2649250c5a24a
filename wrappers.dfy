/** Failure-carrying values used where the Java code returns null or throws. */
module Wrappers {

  /** A value that may be absent: `None` stands for a Java `null` reference. */
  datatype Option<+T> = None | Some(value: T)

  /** The value of a computation that may instead fail with an error. */
  datatype Result<+R, +E> = Success(value: R) | Failure(error: E)

  /** The outcome of a check that returns normally or fails with an error. */
  datatype Outcome<+E> = Pass | Fail(error: E)
}
