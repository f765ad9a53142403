/** The optional-value wrapper used for JavaScript's `undefined` / `null` and for optional record fields. */
module Wrappers {

  datatype Option<+T> = None | Some(value: T) {

    function GetOr(default: T): T {
      match this
      case Some(v) => v
      case None => default
    }
  }
}
