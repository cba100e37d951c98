/** Failure-carrying values used where the source returns null or throws. */
module Wrappers {

  /** A value that may be absent: JavaScript's `null`/`undefined` results. */
  datatype Option<+T> = None | Some(value: T)

  /** The outcome of an operation that throws `new Error(message)` on bad input. */
  datatype Result<+T> = Ok(value: T) | Err(message: string)
}
