/** Small failure-carrying datatypes used across the model. */
module Wrappers {

  /** A value that may be absent (Java's null / Optional.empty()). */
  datatype Option<+T> = None | Some(value: T)

  /** A value or the error the Java code would have thrown. */
  datatype Result<+T, +E> = Success(value: T) | Failure(error: E)
}
