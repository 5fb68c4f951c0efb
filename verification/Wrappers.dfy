/** Failure-compatible result types used by every component. */
module Wrappers {

  datatype Option<+T> = None | Some(value: T)

  /** A Rust `Result`: methods use it with `:-` where the source uses `?`. */
  datatype Result<+T, +E> = Success(value: T) | Failure(error: E) {
    predicate IsFailure() {
      Failure?
    }

    function PropagateFailure<U>(): Result<U, E>
      requires Failure?
    {
      Failure(error)
    }

    function Extract(): T
      requires Success?
    {
      value
    }
  }
}
