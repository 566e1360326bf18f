/** Failure-carrying datatypes used where the Java code returns null or throws. */
module Wrappers {

  /** A value that may be absent; stands for a nullable reference. */
  datatype Option<+T> = None | Some(value: T)

  /** Either a result or the error the Java code would have thrown. */
  datatype Result<+T, +E> = Ok(value: T) | Err(error: E)
}
