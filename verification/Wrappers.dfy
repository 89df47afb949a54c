/** Result types shared by the whole project. */
module Wrappers {

  datatype Option<+T> = None | Some(value: T)

  /** What a call that may throw gives back. */
  datatype Result<+T> = Failure | Success(value: T) {
    predicate IsFailure() {
      Failure?
    }

    function PropagateFailure<U>(): Result<U>
      requires Failure?
    {
      Failure
    }

    function Extract(): T
      requires Success?
    {
      value
    }
  }
}
