/** Optional values, standing in for `undefined`/`null` results and optional fields. */
module Wrappers {

  datatype Option<+T> = None | Some(value: T) {

    /** The value held, or `default` when there is none. */
    function GetOr(default: T): T {
      match this
      case Some(v) => v
      case None => default
    }
  }

  /**
   * JavaScript truthiness of an optional string: present and non-empty. The one
   * definition behind every `if (color)`, `if (sessionId)` and `sessionId || …`.
   */
  predicate Truthy(o: Option<string>) {
    o.Some? && o.value != ""
  }
}
