/** Nullable values and results with an error, the two shapes the generator's
    inputs and outputs take. */
module Wrappers {

  /** A value that may be absent: a C# `null` reference is `None`. */
  datatype Option<+T> = None | Some(value: T)

  /** The outcome of an operation that can throw: `Failure` carries the exception. */
  datatype Result<+T, +E> = Success(value: T) | Failure(error: E)
}
