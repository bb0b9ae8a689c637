/** Failure-compatible wrappers used across the model: an optional value (Python's
    `None` versus a value) and a result that carries either a value or the
    exception the source would raise. */
module Wrappers {

  datatype Option<+T> = None | Some(value: T)

  datatype Result<+T, +E> = Ok(value: T) | Err(error: E)
}
