/** Failure-carrying datatypes shared by the other modules: `Option` for a
    value that may be absent (a regex match that found nothing) and `Result`
    for a Go `(value, error)` pair. */
module Wrappers {

  datatype Option<+T> = None | Some(value: T)

  datatype Result<+R, +E> = Success(value: R) | Failure(error: E)
}
