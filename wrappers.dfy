/** The two failure-carrying datatypes the rest of the model returns. */
module Wrappers {

  /** A value that may be missing: Go's `(v, true)` / `(nil, false)` pairs. */
  datatype Option<+T> = None | Some(value: T)

  /** A value or an error: Go's `(v, nil)` / `(nil, err)` pairs. */
  datatype Result<+T, +E> = Success(value: T) | Failure(error: E)
}
