/** `Option` and `Result`, shared by every module of the model. */
module Wrappers {

  /** A value that may be absent; `None` stands for the source's `null`. */
  datatype Option<+T> = None | Some(value: T)

  /** The outcome of an operation that can fail; `Failure` stands for a thrown error. */
  datatype Result<+T, +E> = Success(value: T) | Failure(error: E)
}
