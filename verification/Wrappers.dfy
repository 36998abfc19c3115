/** Optional values and results, used by every other module. */
module Wrappers {

  datatype Option<+T> = None | Some(value: T)

  /** `Err` stands for the exceptions and error returns of the modelled code. */
  datatype Result<+T, +E> = Ok(value: T) | Err(error: E) {
    predicate IsFailure() {
      Err?
    }

    function PropagateFailure<U>(): Result<U, E>
      requires Err?
    {
      Err(error)
    }

    function Extract(): T
      requires Ok?
    {
      value
    }
  }
}
