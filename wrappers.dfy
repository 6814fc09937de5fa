/** Option and Result, the two failure-carrying values the model returns. */
module Wrappers {

  /** A value that may be absent: Python's `Optional[...]`, with `None` as the absent case. */
  datatype Option<+T> = None | Some(value: T)

  /** The outcome of a route handler: a response, or the exception it raises. */
  datatype Result<+T, +E> = Success(value: T) | Failure(error: E)
}
