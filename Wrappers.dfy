/** Failure-compatible wrappers used throughout the model: `Option` stands for
    a Java reference that may be null (or an `Optional`), `Result` for a call
    that may throw. */
module Wrappers {

  datatype Option<+T> = None | Some(value: T)

  datatype Result<+R, +E> = Success(value: R) | Failure(error: E)
}
