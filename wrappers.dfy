/** Small failure-carrying datatypes used for Go's `(value, ok)` and `(value, err)` results. */
module Wrappers {

  /** `Some(v)` stands for Go's `(v, true)`, `None` for `(zero, false)`. */
  datatype Option<+T> = None | Some(value: T)

  /** `Ok(v)` stands for Go's `(v, nil)`, `Err(msg)` for a non-nil `error`. */
  datatype Result<+T> = Ok(value: T) | Err(msg: string)
}
