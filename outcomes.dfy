/** Result and option types standing in for the exceptions and std::optional of the library. */
module Outcomes {

  /** The failure conditions: invalid_argument and out_of_range, which the library throws, and
      IllegalState, the model's refusal of Reduce while a rule is attached. */
  datatype ErrorKind = InvalidArgument | OutOfRange | IllegalState

  /** An optional value (std::optional). */
  datatype Option<T> = None | Some(value: T)

  /** A value, or the failure that replaced it. */
  datatype Result<T> = Ok(value: T) | Err(error: ErrorKind)

  /** The outcome of an operation that returns nothing but may fail. */
  datatype Outcome = Pass | Fail(error: ErrorKind)
}
