/** Error values for the exceptions and undefined numerical results of the library. */
module Errors {

  /** Why an operation produced no value. */
  datatype Error =
    | ShapeError      // tensor shapes that cannot be combined (batch sizes differ)
    | AssertionError  // a Python `assert` in the library failed
    | EmptyMatrix     // the maximum of a zero-size array was asked for
    | NotANumber      // a division by zero that numpy turns into NaN or infinity

  datatype Result<T> = Ok(value: T) | Err(error: Error)

  datatype Option<T> = None | Some(value: T)
}
