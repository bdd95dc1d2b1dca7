/** Error-carrying return values used in place of Go's `(value, err error)` pairs. */
module Results {

  /** A value that may be absent (a Go nil pointer or a missing map entry). */
  datatype Option<+T> = None | Some(value: T)

  /** The value of a call that returns `(value, err)`: exactly one of the two is meaningful. */
  datatype Result<+T> = Ok(value: T) | Err(error: string)

  /** The value of a call that returns only `err error`. */
  datatype Outcome = Pass | Fail(error: string)
}
