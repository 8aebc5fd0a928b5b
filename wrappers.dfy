/** Option, Result and Outcome: the null references and exceptions of the
    reconciler, made explicit. */
module Wrappers {

  /** A nullable value (`T?` in the C# source). */
  datatype Option<+T> = None | Some(value: T)

  /** A value or the error an operation throws. */
  datatype Result<+T, +E> = Ok(value: T) | Err(error: E)

  /** Success or the error an operation that returns nothing throws. */
  datatype Outcome<+E> = Pass | Fail(error: E)
}
