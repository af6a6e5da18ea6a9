/** Option and Result, the two failure-carrying wrappers the model uses. */
module Wrappers {

  datatype Option<+T> = None | Some(value: T)

  /** `Failure` stands for an exception the source lets propagate. */
  datatype Result<+R, +E> = Success(value: R) | Failure(error: E)
}
