/** Failure-compatible wrappers: `Option` for values that may be absent and
    `Result` for computations that either succeed with a value or fail with an
    error. Both support Dafny's `:-` operator, which is how the model writes the
    `?` early returns of the Rust code. */
module Wrappers {

  datatype Option<+T> = None | Some(value: T) {

    predicate IsFailure() {
      None?
    }

    function PropagateFailure<U>(): Option<U>
      requires None?
    {
      None
    }

    function Extract(): T
      requires Some?
    {
      value
    }
  }

  datatype Result<+T, +E> = Success(value: T) | Failure(error: E) {

    predicate IsFailure() {
      Failure?
    }

    function PropagateFailure<U>(): Result<U, E>
      requires Failure?
    {
      Failure(error)
    }

    function Extract(): T
      requires Success?
    {
      value
    }
  }

  /** The outcome of Rust code that may panic instead of returning. */
  datatype MayPanic<+T> = Returned(value: T) | Panicked
}
