/** Optional values: Python's `None` or a value. */
module Wrappers {

  datatype Option<+T> = None | Some(value: T) {

    /** Returns the wrapped value, or `default` when this is `None`. */
    function GetOr(default: T): T {
      match this
      case Some(v) => v
      case None => default
    }
  }

  /** A value, or the Python exception an operation raised instead. */
  datatype Result<+T> = Ok(value: T) | Raised(exception: string)

  /** Python truthiness of an optional string: not `None` and not empty. */
  predicate Truthy(s: Option<string>) {
    s.Some? && |s.value| > 0
  }
}
