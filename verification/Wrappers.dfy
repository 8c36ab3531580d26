/** Option and Result, the shapes that stand for Python's None and raised errors. */
module Wrappers {

  datatype Option<+T> = None | Some(value: T)

  /** A value, or the error the source would raise; usable with `:-`. */
  datatype Result<+T, +E> = Ok(value: T) | Err(error: E) {
    predicate IsFailure() {
      Err?
    }

    function PropagateFailure<U>(): Result<U, E>
      requires Err?
    {
      Err(error)
    }

    function Extract(): T
      requires Ok?
    {
      value
    }
  }
}
