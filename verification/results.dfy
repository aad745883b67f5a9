/** Failure-carrying wrappers shared by every component: Go's `(T, error)`
    pairs and nil pointers become `Result` and `Option` values. */
module Results {

  /** A value that may be absent (Go's nil pointer or "not found"). */
  datatype Option<+T> = None | Some(value: T)

  /** A value or the error the Go function returned instead of it. */
  datatype Result<+T, +E> = Ok(value: T) | Err(error: E)
}
