/** Option, Result and Outcome: how the model spells Java's null, thrown exceptions and void calls. */
module Wrappers {

  /** A value that may be absent (Java's null reference). */
  datatype Option<+T> = None | Some(value: T)

  /** A value, or the failure that was raised instead of returning it. */
  datatype Result<+T, +E> = Ok(value: T) | Err(error: E)

  /** A call that returns nothing, or the failure it raised. */
  datatype Outcome<+E> = Pass | Fail(error: E)
}
