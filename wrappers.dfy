/** Option and Result, used for the lookups that may miss and for the
    operations whose source raises, asserts or returns an error code. */
module Wrappers {

  datatype Option<+T> = None | Some(value: T)

  datatype Result<+T, +E> = Success(value: T) | Failure(error: E)
}
