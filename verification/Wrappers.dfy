/** Result shapes shared by the models: an optional value, and the outcome of a
    call that either returns or raises. */
module Wrappers {
  datatype Option<+T> = None | Some(value: T)

  datatype Result<+T, +E> = Success(value: T) | Failure(error: E)
}
