/** Option and Result values standing for Go's `(value, ok)` and `(value, error)` returns. */
module Results {

  datatype Option<+T> = None | Some(value: T)

  /** A Go `error` is modelled by its message. */
  datatype Result<+T> = Ok(value: T) | Err(error: string)
}
