/** Failure-carrying values shared by every module of the model. */
module Wrappers {

  /** A value that may be missing (JavaScript `null` / `undefined`). */
  datatype Option<T> = None | Some(value: T)

  /** The outcome of an operation that may throw: `Err` carries the error message. */
  datatype Result<T> = Ok(value: T) | Err(error: string)

  function Min(a: int, b: int): int { if a <= b then a else b }
}
