/** Optional values and results with an error path, used across the model. */
module Wrappers {

  /** A value that may be absent: Java's null reference or an empty Optional. */
  datatype Option<+T> = None | Some(value: T)

  /** Either a value or the exception the Java code would have thrown. */
  datatype Result<+R, +E> = Ok(value: R) | Err(error: E)
}
