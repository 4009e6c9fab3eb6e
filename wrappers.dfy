/** The optional-value type used for JavaScript's `null`/`undefined` results and fields. */
module Wrappers {

  datatype Option<+T> = None | Some(value: T) {

    /** The value in `Some`, or `default` when `None` (JavaScript's `x ?? default`). */
    function GetOr(default: T): T {
      match this
      case Some(v) => v
      case None => default
    }
  }
}
