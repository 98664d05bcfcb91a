/** Failure-carrying datatypes used in place of Java's `null` and thrown exceptions. */
module Wrappers {

  /** `None` stands for a Java `null` reference. */
  datatype Option<+T> = None | Some(value: T)

  /** `Err` stands for an exception thrown to the caller. */
  datatype Result<+R, +E> = Ok(value: R) | Err(error: E)
}
