/** Option and Result; a Failure stands for Java's thrown ParseException. */
module Wrappers {

  datatype Option<+T> = None | Some(value: T)

  /** Success carries the parsed value; Failure carries the exception that was thrown. */
  datatype Result<+T, +E> = Success(value: T) | Failure(error: E)
}
