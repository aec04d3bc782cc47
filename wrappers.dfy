/** Option and Result, for values a Python call may not produce. */
module Wrappers {

  /** A value that may be absent (Python's None, pandas' NaN). */
  datatype Option<+T> = None | Some(value: T)

  /** The value of a call, or the error it raises. */
  datatype Result<+T, +E> = Ok(value: T) | Err(error: E)
}
