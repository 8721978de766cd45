/** Failure-carrying values used where the Java code returns null or throws. */
module Wrappers {

  /** A value or nothing: the model of a Java reference that may be null. */
  datatype Option<+T> = None | Some(value: T)

  /** A result or the error that aborted the computation. */
  datatype Result<+T, +E> = Success(value: T) | Failure(error: E)
}
