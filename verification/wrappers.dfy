/** Failure-carrying datatypes shared by the codec and display modules. */
module Wrappers {

  /** A value that may be absent; `None` plays the role of JavaScript's `undefined`. */
  datatype Option<+T> = None | Some(value: T)

  /** What an operation that may throw gives back: its value, or the message of the error it throws. */
  datatype Thrown<+T> = Ok(value: T) | Err(message: string)
}
