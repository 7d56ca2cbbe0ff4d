/** Optional values: the model's stand-in for Python's `None` and for a
    lookup or parse that can fail. */
module Wrappers {

  datatype Option<+T> = None | Some(value: T) {

    /** The value inside `Some`, or `default` when `None`. */
    function GetOr(default: T): T {
      match this
      case Some(v) => v
      case None => default
    }
  }
}
