/** Failure-compatible wrappers, and the Ruby exceptions the modelled code raises. */
module Wrappers {

  /** Ruby's `nil` or a value. */
  datatype Option<+T> = None | Some(value: T) {

    /** The wrapped value, or `default` for nil (Ruby's `x || default`). */
    function GetOr(default: T): T {
      match this
      case Some(v) => v
      case None => default
    }
  }

  /** The exceptions the core can raise. */
  datatype Error =
      /** A method called on a receiver that does not define it (`nil.to_sym`, `nil.fetch`, ...). */
    | NoMethodError(receiver: string, methodName: string)
      /** The request asked to sort by attributes that were not declared. */
    | UnpermittedSortParameters(message: string)

  /** The outcome of an operation that may raise. */
  datatype Result<+T> = Ok(value: T) | Err(error: Error) {

    predicate IsFailure() {
      Err?
    }

    function PropagateFailure<U>(): Result<U>
      requires Err?
    {
      Err(error)
    }

    function Extract(): T
      requires Ok?
    {
      value
    }
  }
}
