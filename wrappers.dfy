/** Optional values, and the JavaScript truthiness test the handlers apply to them. */
module Wrappers {

  /** A value that may be missing: JavaScript's `null`/`undefined` become None. */
  datatype Option<+T> = None | Some(value: T) {

    /** The `??` operator: the value when present, otherwise the default. */
    function GetOr(default: T): T {
      match this
      case Some(v) => v
      case None => default
    }
  }

  /** `if (s)` on a string-or-null: false for a missing value and for "". */
  predicate Truthy(s: Option<string>) {
    s.Some? && s.value != ""
  }
}
