/** Failure-compatible wrappers used for the error paths of the protocol:
    a value that may be absent, and a computation that may fail with an error. */
module Wrappers {

  datatype Option<+T> = None | Some(value: T) {
    /** The wrapped value, or `default` when there is none (JavaScript `x || d` on objects,
        Python `x or d` on dicts). */
    function GetOr(default: T): T {
      match this
      case Some(v) => v
      case None => default
    }
  }

  datatype Result<+R, +E> = Success(value: R) | Failure(error: E) {
    predicate IsFailure() { Failure? }

    function PropagateFailure<U>(): Result<U, E>
      requires Failure?
    {
      Failure(error)
    }

    function Extract(): R
      requires Success?
    {
      value
    }
  }

  /** The outcome of an operation that changes state and returns nothing on success. */
  datatype Outcome<+E> = Pass | Fail(error: E)
}
