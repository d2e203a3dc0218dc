/** Small result types shared by the other modules. */
module Wrappers {

  datatype Option<+T> = None | Some(value: T)

  /** The value of a call that returns nothing. */
  datatype Unit = Unit

  /** How a C++ call ends: with a value, or by throwing. */
  datatype Outcome<+T> = Ok(value: T) | Throw
}
