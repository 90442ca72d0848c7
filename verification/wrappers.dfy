/** Failure-carrying wrappers shared by the whole model. */
module Wrappers {

  /** A value that may be missing: `undefined`/`null` in the application. */
  datatype Option<+T> = None | Some(value: T)

  /** The outcome of a store call that may throw. */
  datatype Result<+R, +E> = Ok(value: R) | Err(error: E)
}
