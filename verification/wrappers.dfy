/** Failure-compatible wrappers used across the model: an optional value
    (JavaScript's `null`/`undefined` versus a present value) and the outcome
    of an operation that may throw an `Error` carrying a message. */
module Wrappers {

  datatype Option<+T> = None | Some(value: T)

  /** `Err` carries the `message` of the JavaScript `Error` that was thrown. */
  datatype Result<+T> = Ok(value: T) | Err(error: string)
}
