/** Option and Result: absent values and error outcomes handed to the model. */
module Wrappers {

  /** An optional value; None stands for JavaScript's null or undefined. */
  datatype Option<+T> = None | Some(value: T)

  /** The outcome of an external parser: its value, or the message of the error it raised. */
  datatype Result<+R, +E> = Success(value: R) | Failure(error: E)
}
