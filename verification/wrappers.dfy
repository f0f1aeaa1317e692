/** Failure-carrying datatypes shared by the client and server models. */
module Wrappers {

  /** A value that may be absent (JavaScript `undefined`/`null`, a failed regex match). */
  datatype Option<+T> = None | Some(value: T)

  /** The outcome of a JavaScript call that either returns a value or throws. */
  datatype Result<+R, +E> = Success(value: R) | Failure(error: E)

  /** The outcome of a JavaScript call that returns nothing or throws. */
  datatype Outcome<+E> = Pass | Fail(error: E)
}
