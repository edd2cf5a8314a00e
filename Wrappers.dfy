/** Option and Result, used for nullable values and for the exceptions and error
    returns of the modelled code, and the byte type of binary payloads. */
module Wrappers {

  /** A value that may be absent (a C# null). */
  datatype Option<+T> = None | Some(value: T)

  /** The outcome of an operation that may fail (throw) with an error of type E. */
  datatype Result<+T, +E> = Ok(value: T) | Err(error: E)

  /** A byte of a file or of serialised content. */
  type byte = bv8
}
