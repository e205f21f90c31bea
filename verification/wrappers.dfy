/** Kotlin's nullable results become `Option`; thrown exceptions become the
    `Failure` arm of a `Result`. */
module Wrappers {

  datatype Option<+T> = None | Some(value: T)

  datatype Result<+T, +E> = Success(value: T) | Failure(error: E)
}
