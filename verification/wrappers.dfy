/** Failure-carrying values shared by every module of the model. */
module Wrappers {

  /** A value that may be missing (a Go map miss, a `nil`, a failed parse). */
  datatype Option<+T> = None | Some(value: T)

  /** A value or the message of the Go `error` that replaced it. */
  datatype Result<+T> = Success(value: T) | Failure(msg: string)

  /** A check that either passes or fails with a message. */
  datatype Outcome = Pass | Fail(msg: string)
}
