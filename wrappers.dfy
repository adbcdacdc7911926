/** Option and Result, the two failure-carrying wrappers the model uses for
    Go's `(value, error)` returns and for nil-able results. */
module Wrappers {

  datatype Option<+T> = None | Some(value: T)

  datatype Result<+T, +E> = Success(value: T) | Failure(error: E)
}
