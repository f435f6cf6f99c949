/** Failure-compatible wrapper shared by the other modules. */
module Wrappers {

  /** An optional value: `None` plays the part of JavaScript's `null`/`undefined`. */
  datatype Option<+T> = None | Some(value: T) {

    /** Returns the wrapped value, or `default` when there is none. */
    function GetOr(default: T): T {
      match this
      case Some(v) => v
      case None => default
    }
  }
}
