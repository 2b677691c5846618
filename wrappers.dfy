/** Failure-compatible result types used by every service operation. */
module Wrappers {

  datatype Option<+T> = None | Some(value: T)

  /** The value of a call that either returns `value` or throws `error`. */
  datatype Result<+T, +E> = Ok(value: T) | Err(error: E)

  /** The outcome of a call that returns nothing or throws `error`. */
  datatype Outcome<+E> = Pass | Fail(error: E)
}
