/** Failure-compatible wrappers shared by the model: an optional value (Go's
    tri-state `optionalString`, `optionalBool`, `optionalInt` and nil pointers)
    and a value-or-error result (Go's `(T, error)` return pairs). */
module Wrappers {

  datatype Option<+T> = None | Some(value: T)

  datatype Result<+T, +E> = Success(value: T) | Failure(error: E) {
    predicate IsFailure() { Failure? }

    function PropagateFailure<U>(): Result<U, E>
      requires Failure?
    {
      Failure(error)
    }

    function Extract(): T
      requires Success?
    {
      value
    }
  }
}
