/** Option and Result, as the repository's own return types use them. */
module Wrappers {

  datatype Option<+T> = None | Some(value: T)

  /** A Rust `Result`, usable with `:-` as the source uses `?`. */
  datatype Result<+T, +E> = Success(value: T) | Failure(error: E) {
    predicate IsFailure() { Failure? }

    function PropagateFailure<U>(): Result<U, E>
      requires Failure?
    {
      Failure(error)
    }

    function Extract(): T
      requires Success?
    {
      value
    }
  }
}
