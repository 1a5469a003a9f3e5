/** An optional value (a JavaScript `undefined` or `null`) and the outcome
    of a mutation that either commits or throws. */
module Wrappers {

  /** A value that may be absent, as `Array.prototype.find` returns one. */
  datatype Option<+T> = None | Some(value: T)

  /** The outcome of an operation that either succeeds with a value or
      throws an error. */
  datatype Result<+R, +E> = Ok(value: R) | Err(error: E)
}
