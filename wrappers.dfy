/** Option and Result, used for the missing cells of a table and for the
    exceptions the dashboard's functions raise. */
module Wrappers {

  datatype Option<+T> = None | Some(value: T)

  datatype Result<+R, +E> = Success(value: R) | Failure(error: E)
}
