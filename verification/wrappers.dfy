/** Failure-carrying values shared by every module of the model.
    `Option` stands for Kotlin's nullable types and Python's `None`;
    `Result` stands for an operation that may raise or throw. */
module Wrappers {

  datatype Option<+T> = None | Some(value: T) {

    /** The value, or `default` when absent (Kotlin's `?:`). */
    function GetOr(default: T): T {
      match this
      case Some(v) => v
      case None => default
    }
  }

  /** `Err` carries the message of the exception the source raises. */
  datatype Result<+T> = Ok(value: T) | Err(msg: string) {

    predicate IsFailure() {
      Err?
    }

    function PropagateFailure<U>(): Result<U>
      requires Err?
    {
      Err(msg)
    }

    function Extract(): T
      requires Ok?
    {
      value
    }
  }
}
