/** Failure-carrying result types shared by the backend, interpolator and graph modules.
    A Java `null` reference becomes `None`; a thrown exception becomes `Failure`/`Fail`. */
module Wrappers {

  datatype Option<+T> = None | Some(value: T)

  /** The value of an operation that may throw: `Success(v)` or `Failure(e)`. */
  datatype Result<+T, +E> = Success(value: T) | Failure(error: E)

  /** The outcome of a `void` operation that may throw. */
  datatype Outcome<+E> = Pass | Fail(error: E)
}
