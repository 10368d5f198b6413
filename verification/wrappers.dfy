/** Failure-compatible wrapper used across the model: `None` stands for the
    source's null pointers, invalid handles and "not found" results. */
module Wrappers {

  datatype Option<+T> = None | Some(value: T) {

    /** Returns the wrapped value, or `default` when there is none. */
    function GetOr(default: T): T {
      match this
      case Some(v) => v
      case None => default
    }
  }
}
