/** Failure-compatible wrappers: a value that may be missing, and a computation
    that either produces a value or fails with an error (a rejected promise or a
    thrown exception in the scripts being modelled). */
module Results {

  datatype Option<+T> = None | Some(value: T)

  datatype Result<+T, +E> = Ok(value: T) | Err(error: E) {

    predicate IsFailure() {
      Err?
    }

    function PropagateFailure<U>(): Result<U, E>
      requires Err?
    {
      Err(error)
    }

    function Extract(): T
      requires Ok?
    {
      value
    }
  }
}
