/** Option and Result, used for missing coordinates and for the errors the
    Python code raises as exceptions. */
module Wrappers {

  datatype Option<+T> = None | Some(value: T)

  datatype Result<+R, +E> = Success(value: R) | Failure(error: E)
}
