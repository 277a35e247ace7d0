/** Option and Result: the two outcome shapes the crawler's steps produce. */
module Wrappers {

  datatype Option<+T> = None | Some(value: T)

  /** A step either yields a value or raises the exception that Python would raise. */
  datatype Result<+T, +E> = Ok(value: T) | Err(error: E)
}
