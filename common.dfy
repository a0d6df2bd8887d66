/** The optional-value and outcome datatypes and the small arithmetic helpers every module shares. */
module Common {

  /** A value that may be absent; for a C# reference, None is the null reference. */
  datatype Option<+T> = None | Some(value: T)

  /** The outcome of an operation that either returns a value or throws. */
  datatype Result<+T, +E> = Success(value: T) | Failure(error: E)

  function Min(a: int, b: int): int { if a <= b then a else b }

  function Max(a: int, b: int): int { if a <= b then b else a }
}
