/** An optional value: a nullable column, a missing row, a regex that did not match. */
module Wrappers {

  datatype Option<+T> = None | Some(value: T) {

    /** The value, or `default` when there is none (the source's `x || default`, which acts as `x ?? default` here because its values are never empty strings or false). */
    function GetOr(default: T): T {
      match this
      case Some(v) => v
      case None => default
    }
  }
}
