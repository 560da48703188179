/** Failure-carrying and nullable values shared by every component. */
module Common {

  /** A nullable column, a null pointer or a missing value. */
  datatype Option<+T> = None | Some(value: T)

  /** The outcome of a request: its new value, or the refusal sent to the caller. */
  datatype Result<+T, +E> = Ok(value: T) | Err(error: E)
}
