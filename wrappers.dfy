/** Absent values. JavaScript's `undefined` (a missing field, the result of
    optional chaining `a?.b` on a missing `a`) is `None`. */
module Wrappers {

  datatype Option<+T> = None | Some(value: T) {

    /** The value, or `default` when absent. */
    function GetOr(default: T): T {
      match this
      case Some(v) => v
      case None => default
    }
  }
}
