/** Failure-aware result types shared by the modules of this model.
    Java's `null` becomes `None`; a thrown exception becomes `Failure` / `Fail`. */
module Wrappers {

  datatype Option<+T> = None | Some(value: T)

  datatype Result<+T, +E> = Success(value: T) | Failure(error: E)

  /** The result of an operation that returns nothing (`void`) but may throw. */
  datatype Outcome<+E> = Pass | Fail(error: E)
}
