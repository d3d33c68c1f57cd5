/** Optional values: C#'s nullable types and TypeScript's `null`/`undefined`. */
module Wrappers {

  datatype Option<+T> = None | Some(value: T) {

    /** C#'s `x ?? d` and `x.GetValueOrDefault(d)`. */
    function GetOr(default: T): T {
      match this
      case Some(v) => v
      case None => default
    }

    /** C#'s `a ?? b` on two nullable values. */
    function OrElse(other: Option<T>): Option<T> {
      if Some? then this else other
    }
  }
}
