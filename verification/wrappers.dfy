/** Failure-compatible wrappers used for the model's error paths. */
module Wrappers {

  datatype Option<+T> = None | Some(value: T)

  /** Either a value or the error that ended the computation (a .NET exception in the C# implementation). */
  datatype Result<+R, +E> = Success(value: R) | Failure(error: E) {

    predicate IsFailure() {
      Failure?
    }

    function PropagateFailure<U>(): Result<U, E>
      requires Failure?
    {
      Failure(error)
    }

    function Extract(): R
      requires Success?
    {
      value
    }
  }
}
