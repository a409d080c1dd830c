/** Optional values and results that either carry a value or an error. */
module Wrappers {

  datatype Option<+T> = None | Some(value: T)

  /** A computation's outcome; failure-compatible, so `:-` propagates `Err`. */
  datatype Result<+T, +E> = Ok(value: T) | Err(error: E) {

    predicate IsFailure() {
      Err?
    }

    function PropagateFailure<U>(): Result<U, E>
      requires Err?
    {
      Err(error)
    }

    function Extract(): T
      requires Ok?
    {
      value
    }
  }
}
