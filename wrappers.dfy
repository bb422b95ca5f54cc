/** An optional value: used for a file that may be missing and for an interrupt that may not come. */
module Wrappers {

  datatype Option<+T> = None | Some(value: T) {

    /** The value held, or the default when there is none. */
    function GetOr(default: T): T {
      match this
      case Some(v) => v
      case None => default
    }
  }
}
