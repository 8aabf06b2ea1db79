/** Failure-compatible result types shared by the modules of this model. */
module Wrappers {

  /** A value that may be absent (Python's None, C's NULL). */
  datatype Option<T> = None | Some(value: T)

  /** The outcome of an operation that may raise an error. */
  datatype Result<T, E> = Ok(value: T) | Err(error: E)
  {
    predicate IsFailure()
    {
      Err?
    }

    function PropagateFailure<U>(): Result<U, E>
      requires Err?
    {
      Err(error)
    }

    function Extract(): T
      requires Ok?
    {
      value
    }
  }
}
