module Wrappers {
  datatype Option<+T> = None | Some(value: T)

  /** What a repository call does: it returns, or it raises and its transaction is rolled back. */
  datatype Result<+T, +E> = Ok(value: T) | Raised(error: E) {
    predicate IsFailure() { Raised? }

    /** An exception passes through a caller that does not catch it. */
    function PropagateFailure<U>(): Result<U, E>
      requires IsFailure()
    {
      Raised(error)
    }

    function Extract(): T
      requires !IsFailure()
    {
      value
    }
  }
}
