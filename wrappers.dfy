/** Option and Result values, used for Go's nil slices and (value, error) returns. */
module Wrappers {

  /** `None` stands for a Go nil slice, `Some` for a slice that exists. */
  datatype Option<+T> = None | Some(value: T)

  /** The `(value, err)` pair returned by a Go call: exactly one side is meaningful. */
  datatype Result<+R, +E> = Success(value: R) | Failure(error: E)
}
