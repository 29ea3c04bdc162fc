/**
  The two outcome types of the model. `Option` stands for a C# reference that
  may be null; `Result` stands for a call that either returns or throws, with
  the exception described by the error value. Both support `:-`, so a chain of
  calls stops at the first one that throws, as the C# code does.
 */
module Wrappers {

  /** A value that may be absent (a null reference in the source). */
  datatype Option<+T> = None | Some(value: T) {
    predicate IsFailure() {
      None?
    }

    function PropagateFailure<U>(): Option<U>
      requires None?
    {
      None
    }

    function Extract(): T
      requires Some?
    {
      value
    }
  }

  /** A returned value, or the reason the call threw. */
  datatype Result<+R, +E> = Success(value: R) | Failure(error: E) {
    predicate IsFailure() {
      Failure?
    }

    function PropagateFailure<U>(): Result<U, E>
      requires Failure?
    {
      Failure(error)
    }

    function Extract(): R
      requires Success?
    {
      value
    }
  }
}
