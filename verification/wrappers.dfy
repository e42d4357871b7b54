/** Failure-compatible wrappers used wherever the program returns "nothing" or throws. */
module Wrappers {

  /** A value that may be absent: the program's `null` returns. */
  datatype Option<+T> = None | Some(value: T)

  /** Either a value or the error the program would have raised. */
  datatype Result<+T, +E> = Success(value: T) | Failure(error: E) {

    predicate IsFailure() {
      Failure?
    }

    function PropagateFailure<U>(): Result<U, E>
      requires Failure?
    {
      Failure(error)
    }

    function Extract(): T
      requires Success?
    {
      value
    }
  }
}
