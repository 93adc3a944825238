/** Failure-compatible wrappers shared by every module of the model: `Option`
    stands for a C# reference that may be null, `Result` for a call that either
    returns a value or throws. */
module Wrappers {

  /** A value that may be absent (a null reference in the C# code). */
  datatype Option<+T> = None | Some(value: T) {

    predicate IsFailure() {
      None?
    }

    function PropagateFailure<U>(): Option<U>
      requires None?
    {
      None
    }

    function Extract(): T
      requires Some?
    {
      value
    }

    /** The wrapped value, or `default` when absent. */
    function GetOr(default: T): (r: T)
      ensures Some? ==> r == value
      ensures None? ==> r == default
    {
      match this
      case Some(v) => v
      case None => default
    }
  }

  /** The outcome of a call that either returns `value` or throws `error`. */
  datatype Result<+R, +E> = Success(value: R) | Failure(error: E) {

    predicate IsFailure() {
      Failure?
    }

    function PropagateFailure<U>(): Result<U, E>
      requires Failure?
    {
      Failure(this.error)
    }

    function Extract(): R
      requires Success?
    {
      value
    }
  }
}
