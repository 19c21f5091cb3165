/** Failure-carrying values shared by the other modules: Option for "maybe a value",
    Result for "a value or the exception the script would have raised". */
module Results {

  datatype Option<+T> = None | Some(value: T)

  /** Result can be used with `:-`, so a chain of steps stops at the first failure,
      the way a Python exception stops the rest of a block. */
  datatype Result<+T, +E> = Success(value: T) | Failure(error: E) {

    predicate IsFailure() {
      Failure?
    }

    function PropagateFailure<U>(): Result<U, E>
      requires Failure?
    {
      Failure(error)
    }

    function Extract(): T
      requires Success?
    {
      value
    }
  }
}
