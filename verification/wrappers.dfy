/** Failure-compatible wrappers used throughout the model: `Option` stands for
    Python's `None`-able values, `Result` for a value or a raised `ValueError`. */
module Wrappers {

  datatype Option<+T> = None | Some(value: T) {

    predicate IsFailure() {
      None?
    }

    function PropagateFailure<U>(): Option<U>
      requires None?
    {
      None
    }

    function Extract(): T
      requires Some?
    {
      value
    }

    /** The wrapped value, or `default` for `None`. */
    function GetOr(default: T): T {
      match this
      case Some(v) => v
      case None => default
    }
  }

  datatype Result<+R, +E> = Success(value: R) | Failure(error: E) {

    predicate IsFailure() {
      Failure?
    }

    function PropagateFailure<U>(): Result<U, E>
      requires Failure?
    {
      Failure(error)
    }

    function Extract(): R
      requires Success?
    {
      value
    }
  }
}

/** The `ValueError`s the loader and the feature-name generator raise. */
module Errors {

  datatype Error =
    | InvalidSplit(split: string)
    | UnknownDataType(dataType: string)
    | UnknownVariables(leftover: seq<string>)
}
