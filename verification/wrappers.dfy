/** Option and Result: the model's stand-ins for JavaScript's `undefined`
    and for an Observable or Promise that either yields a value or errors. */
module Wrappers {

  /** A value that may be absent (`undefined` or `null` in the source). */
  datatype Option<+T> = None | Some(value: T) {

    /** The value, or `default` when absent (JavaScript's `x || default`
        for values that are never falsy when present). */
    function GetOr(default: T): T {
      match this
      case Some(v) => v
      case None => default
    }
  }

  /** The settled outcome of an asynchronous collaborator call. */
  datatype Result<+T> = Success(value: T) | Failure(error: string)
}
