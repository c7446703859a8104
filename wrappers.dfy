/** Success/failure carriers used in place of Go's `(value, error)` pairs and nil results. */
module Wrappers {

  datatype Option<+T> = None | Some(value: T)

  datatype Result<+T, +E> = Success(value: T) | Failure(error: E)
}
