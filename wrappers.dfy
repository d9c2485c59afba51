/** Option and Result, the two failure-carrying values the model uses for
    Python's `None` and for exceptions that the source lets propagate. */
module Wrappers {

  datatype Option<+T> = None | Some(value: T)

  datatype Result<+T, +E> = Ok(value: T) | Err(error: E)
}
