/** Failure-compatible wrappers shared by every module of the model:
    `Option` stands for JavaScript's `undefined`/`null` and Python's `None`,
    `Result` for a value or the message of an exception that was raised. */
module Wrappers {

  datatype Option<+T> = None | Some(value: T)

  datatype Result<+T, +E> = Ok(value: T) | Err(error: E) {
    predicate IsFailure() {
      Err?
    }

    function PropagateFailure<U>(): Result<U, E>
      requires Err?
    {
      Err(error)
    }

    function Extract(): T
      requires Ok?
    {
      value
    }
  }
}
