/** The conventional optional value, Python's `None` or a result, and the outcome of an operation
    that may raise. */
module Options {
  datatype Option<+T> = None | Some(value: T)

  datatype Result<+T, +E> = Ok(value: T) | Err(error: E)
}
