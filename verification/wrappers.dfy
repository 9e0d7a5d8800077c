/** Option, used wherever the JavaScript has a value that may be null, undefined or absent. */
module Wrappers {

  datatype Option<+T> = None | Some(value: T) {
    /** The value, or `default` when absent: JavaScript's `x || default` on a value that is never falsy when present. */
    function GetOr(default: T): T {
      match this
      case Some(v) => v
      case None => default
    }
  }
}
