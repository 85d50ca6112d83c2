/** The usual optional value, and the outcome of an operation that can fail
    with a message. */
module Wrappers {
  datatype Option<+T> = None | Some(value: T)

  datatype Result<+T> = Success(value: T) | Failure(error: string)
}
