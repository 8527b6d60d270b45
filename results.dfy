/** Go's `(value, error)` and `error` returns: an error is `Some(e)` / `Failure(e)`, nil is `None`. */
module Results {

  datatype Option<+T> = None | Some(value: T)

  datatype Result<+T, +E> = Success(value: T) | Failure(error: E)
}
