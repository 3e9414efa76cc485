/** Optional values and results with an error channel, used for the optional
    arguments and for the exceptions the pricing library raises. */
module Outcomes {

  /** An argument that may be absent (Python's `None` default). */
  datatype Option<+T> = None | Some(value: T)

  /** A computation that either returns a value or raises an error. */
  datatype Result<+T, +E> = Ok(value: T) | Err(error: E)
}
