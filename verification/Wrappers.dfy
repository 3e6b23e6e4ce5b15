/** The two result shapes the translator's code uses throughout. */
module Wrappers {

  datatype Option<+T> = None | Some(value: T)

  /** A value, or the refusal the translator answers instead of one. */
  datatype Result<+T, +E> = Ok(value: T) | Err(error: E) {
    predicate IsFailure() {
      Err?
    }

    function PropagateFailure<U>(): (r: Result<U, E>)
      requires Err?
    {
      Err(error)
    }

    function Extract(): T
      requires Ok?
    {
      value
    }
  }
}
