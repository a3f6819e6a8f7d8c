/** Failure-compatible wrappers shared by the modules of this model. */
module Wrappers {

  datatype Option<+T> = None | Some(value: T)

  /** Either a value or the error that the source raises or returns. */
  datatype Result<+T, +E> = Ok(value: T) | Err(error: E) {
    predicate IsFailure() {
      Err?
    }

    function PropagateFailure<U>(): Result<U, E>
      requires Err?
    {
      Err(error)
    }

    function Extract(): T
      requires Ok?
    {
      value
    }
  }
}
