/** Option and Result, standing in for C#'s nullable references and thrown exceptions. */
module Wrappers {

  /** A value that may be absent (a C# reference that may be null). */
  datatype Option<+T> = None | Some(value: T)

  /** The value of an operation, or the error it raised instead. */
  datatype Result<+R, +E> = Success(value: R) | Failure(error: E)
}
