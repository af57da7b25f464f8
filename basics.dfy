/** Failure-compatible wrappers used across the model. */
module Basics {

  /** An optional value; `None` stands for Python's `None` or an absent key. */
  datatype Option<+T> = None | Some(value: T) {
    predicate IsFailure() { None? }

    function PropagateFailure<U>(): Option<U>
      requires None?
    {
      None
    }

    function Extract(): T
      requires Some?
    {
      value
    }

    /** The value, or `default` when there is none (Python's `d.get(k, default)`). */
    function GetOr(default: T): T {
      match this
      case Some(v) => v
      case None => default
    }
  }

  /** A value, or the text of the exception that prevented it. */
  datatype Result<+R> = Ok(value: R) | Err(message: string)
}
