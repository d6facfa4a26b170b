/** Option and Result, used for absent request fields, lookups that may
    miss and operations that may fail. */
module Wrappers {

  datatype Option<+T> = None | Some(value: T)

  datatype Result<+R, +E> = Success(value: R) | Failure(error: E)
}
