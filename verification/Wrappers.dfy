/** The two result shapes shared by every component. */
module Wrappers {

  /** A nullable column or a lookup that may find nothing. */
  datatype Option<+T> = None | Some(value: T)

  /** What a request handler gives back: its answer, or the exception it threw. */
  datatype Result<+T, +E> = Ok(value: T) | Err(error: E)
}
