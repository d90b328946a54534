/** Failure-compatible wrappers shared by every module of the model. */
module Wrappers {

  /** A value that may be absent. Where the program reads a JavaScript
      property that can be `undefined`, `None` stands for `undefined`. */
  datatype Option<+T> = None | Some(value: T)

  /** The outcome of an operation that can throw (or reject): `Ok` carries
      the value it returns, `Err` what it throws. */
  datatype Result<+T, +E> = Ok(value: T) | Err(error: E)
}
