/**
 * Failure-compatible result type shared by every component of the model.
 * The source threads `Result<T>` values (`makeOk` / `makeFailure`) through
 * `bind`; here `:-` plays the part of `bind`.
 */
module Wrappers {

  datatype Result<+T, +E> = Success(value: T) | Failure(error: E) {

    predicate IsFailure() {
      Failure?
    }

    function PropagateFailure<U>(): Result<U, E>
      requires Failure?
    {
      Failure(error)
    }

    function Extract(): T
      requires Success?
    {
      value
    }
  }
}
