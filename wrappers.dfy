/** Small failure-carrying datatypes shared by the whole model. */
module Wrappers {

  /** A value that may be absent: Go's `(value, ok)` pairs and JavaScript's `null`. */
  datatype Option<+T> = None | Some(value: T)

  /** A value or the error that prevented it: Go's `(value, err)` pairs. */
  datatype Result<+T, +E> = Ok(value: T) | Err(error: E)
}
