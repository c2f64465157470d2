/** Optional values, used for Java references that may be null. */
module Wrappers {

  /** `None` stands for a Java `null`; `Some(v)` for a non-null reference to `v`. */
  datatype Option<+T> = None | Some(value: T) {

    /** The held value, or `default` when there is none (a Java null). */
    function GetOr(default: T): T {
      match this
      case Some(v) => v
      case None => default
    }
  }
}
