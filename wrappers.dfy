/** Option and Result values used for the optional JSON path and for the
    error outcomes that the source reports by raising an exception. */
module Wrappers {
  datatype Option<+T> = None | Some(value: T)

  datatype Result<+R, +E> = Success(value: R) | Failure(error: E)
}
