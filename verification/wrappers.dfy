/** Option and Result: the model's stand-ins for a missing value and for a raised exception. */
module Wrappers {

  datatype Option<+T> = None | Some(value: T)

  /** `Ok` carries the computed value; `Err` carries the error the source would raise. */
  datatype Result<+T, +E> = Ok(value: T) | Err(error: E) {

    predicate IsFailure() {
      Err?
    }

    function PropagateFailure<U>(): Result<U, E>
      requires Err?
    {
      Err(error)
    }

    function Extract(): T
      requires Ok?
    {
      value
    }
  }
}
