/** Failure-compatible wrappers used for the missing values and the exceptions
    of the modelled code. */
module Wrappers {

  datatype Option<+T> = None | Some(value: T)

  datatype Result<+T, +E> = Success(value: T) | Failure(error: E) {

    predicate IsFailure() {
      Failure?
    }

    function PropagateFailure<U>(): Result<U, E>
      requires Failure?
    {
      Failure(error)
    }

    function Extract(): T
      requires Success?
    {
      value
    }
  }

  /** The exceptions the modelled code can raise, by their Python names. */
  datatype Error =
    | KeyError(key: string)       // a missing configuration key or table column
    | TypeError(key: string)      // a configuration value of an unusable type
    | NodeNotFound(node: string)  // a traversal started at a node the graph lacks
    | NoObjectsToConcatenate      // concatenation of an empty list of tables
    | OverflowError(key: string)  // a configuration value out of the range a timedelta holds
}
