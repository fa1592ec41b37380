/** Failure-carrying and optional values shared by the whole model. */
module Wrappers {

  /** A value that may be missing (`undefined` in the source). */
  datatype Option<+T> = None | Some(value: T)

  /** A result, or the message of the `Error` the source throws. */
  datatype Result<+T> = Ok(value: T) | Err(message: string)

  /** A JSON field where `undefined`, `null` and a value are told apart. */
  datatype Nullable<+T> = Undefined | Null | Value(value: T)

  /** What an operation that returns nothing reports: done, or the thrown message. */
  datatype Outcome = Done | Failed(message: string)
}
