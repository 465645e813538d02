/** An optional value: stands for a JavaScript property that may be absent
    (`image?`, `deletedAt?`) and for a `find` that may come back `undefined`. */
module Wrappers {

  datatype Option<+T> = None | Some(value: T) {

    /** The value, or `default` when there is none. */
    function GetOr(default: T): T {
      match this
      case Some(v) => v
      case None => default
    }
  }
}
