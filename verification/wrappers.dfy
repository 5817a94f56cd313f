/** Option and Result values: Python's `None`-or-value returns and the
    handler's error responses. */
module Wrappers {

  /** A value that may be absent (`None` in the source). */
  datatype Option<+T> = None | Some(value: T) {

    /** The value, or `default` when absent (Python's `x or default` on a
        value that is never falsy when present). */
    function GetOr(default: T): T {
      match this
      case Some(v) => v
      case None => default
    }
  }

  /** A computed value or an error description. */
  datatype Result<+R, +E> = Ok(value: R) | Err(error: E)

  /** Python truthiness of an optional string: present and non-empty. */
  predicate Truthy(s: Option<string>) {
    s.Some? && s.value != ""
  }

  /** `s or ""` on an optional string. */
  function OrEmpty(s: Option<string>): string {
    s.GetOr("")
  }
}
