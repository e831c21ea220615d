/** Optional values and results with an error, as the modelled code uses
    them: a missing CSV cell, a parser that gives up, a lookup that raises. */
module Wrappers {

  datatype Option<+T> = None | Some(value: T) {
    function GetOr(default: T): T {
      match this
      case Some(v) => v
      case None => default
    }
  }

  datatype Result<+T, +E> = Success(value: T) | Failure(error: E)
}
