/** Optional values: the model's stand-in for Java's null. */
module Wrappers {

  datatype Option<+T> = None | Some(value: T) {

    /** The value encapsulated in Some, or the given default when None. */
    function GetOr(default: T): T {
      match this
      case Some(v) => v
      case None() => default
    }
  }
}
