/** Optional values, standing in for Python's `None`. */
module Wrappers {

  /** A value that may be absent: `None` models Python's `None` and JSON's `null`. */
  datatype Option<+T> = None | Some(value: T) {

    /** The wrapped value, or `default` when there is none. */
    function GetOr(default: T): T {
      match this
      case Some(v) => v
      case None => default
    }
  }
}
