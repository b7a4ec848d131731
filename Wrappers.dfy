/** Java's nullable references and thrown exceptions, as values. */
module Wrappers {

  /** A Java reference that may be null: `None` is `null`. */
  datatype Option<+T> = None | Some(value: T)

  /** The normal return of a Java method (`Ok`) or the exception it throws (`Err`). */
  datatype Result<+T, +E> = Ok(value: T) | Err(error: E)
}
