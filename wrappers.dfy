/** Option and Result, the two failure-carrying shapes the model uses in place of
    Go's nil pointers and (value, error) pairs. */
module Wrappers {

  /** A nullable value: `None` stands for Go's nil. */
  datatype Option<+T> = None | Some(value: T)

  /** Either a value or the error a Go function returned beside it. */
  datatype Result<+T, +E> = Success(value: T) | Failure(error: E)
}
