/** Optional values and error-or-value results, standing in for Go's `(T, error)` returns. */
module Results {

  /** A value that may be absent; `Some(msg)` is also used for "this step failed with msg". */
  datatype Option<+T> = None | Some(value: T)

  /** Either a value or an error. */
  datatype Result<+T, +E> = Ok(value: T) | Err(error: E)
}
