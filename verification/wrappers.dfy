/** Failure-carrying datatypes shared by every module of the model. */
module Wrappers {

  /** A value that may be missing (a failed file read, a null prompt answer). */
  datatype Option<+T> = None | Some(value: T)

  /** Either a value or the error that stopped its computation. */
  datatype Result<+R, +E> = Success(value: R) | Failure(error: E)
}
