/** Option and Result types used for Java's nullable values, `Optional`, and
    the exceptions the services throw. */
module Wrappers {

  /** A Java reference that may be `null`, or a `java.util.Optional`. */
  datatype Option<+T> = None | Some(value: T)

  /** The outcome of a call that either returns a value or throws. */
  datatype Result<+T, +E> = Ok(value: T) | Fail(error: E)

  /** The outcome of a `void` call that may throw. */
  datatype Outcome<+E> = Pass | Failure(error: E)
}
