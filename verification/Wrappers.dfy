/** The two result types shared by every component of the model. */
module Wrappers {
  /** A value that may be absent. */
  datatype Option<+T> = None | Some(value: T)

  /** The outcome of an operation that the original reports by raising an exception. */
  datatype Result<+T> = Success(value: T) | Failure
}
