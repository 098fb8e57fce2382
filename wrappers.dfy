/** Option and Result: the model's stand-ins for Go's nil pointers and
    (value, error) return pairs. */
module Wrappers {

  datatype Option<+T> = None | Some(value: T)

  datatype Result<+T, +E> = Success(value: T) | Failure(error: E)
}
