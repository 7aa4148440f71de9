/** Failure-compatible wrappers used throughout the model.
    `None` stands for a Java `null`, `Failure` for a thrown exception. */
module Wrappers {

  datatype Option<+T> = None | Some(value: T)

  datatype Result<+R, +E> = Success(value: R) | Failure(error: E)
}
