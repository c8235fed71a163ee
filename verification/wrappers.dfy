/** The datatypes shared by the model: an optional value and a value-or-error
    result, the two shapes Go's `(T, error)` returns take here. */
module Wrappers {

  datatype Option<+T> = None | Some(value: T)

  datatype Result<+T, +E> = Success(value: T) | Failure(error: E)
}
