/** Optional values and results that may fail, as used by every other module. */
module Wrappers {

  /** A value that may be absent: a null pointer or a missing map entry in the source. */
  datatype Option<+T> = None | Some(value: T)

  /** A value or an error; the error stands for an exception thrown by the source. */
  datatype Result<+R, +E> = Success(value: R) | Failure(error: E) {
    predicate IsFailure() {
      Failure?
    }

    function PropagateFailure<U>(): Result<U, E>
      requires Failure?
    {
      Failure(error)
    }

    function Extract(): R
      requires Success?
    {
      value
    }
  }
}
