/** Failure-carrying datatypes shared by every module of the model. */
module Wrappers {

  /** Python's `None` / a present value. */
  datatype Option<+T> = None | Some(value: T)

  /** The Python exceptions that escape the modelled code uncaught. */
  datatype PyError =
    | ZeroDivisionError   // Fraction("n/0")
    | TypeError           // "".join over a list holding None

  /** A computation that either returns a value or raises an uncaught exception. */
  datatype Result<+T> = Ok(value: T) | Raise(error: PyError)
}
