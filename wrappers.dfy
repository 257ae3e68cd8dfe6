/** The optional value used for the drawable (absent = no drawable) and for attributes. */
module Wrappers {
  datatype Option<+T> = None | Some(value: T) {
    /** The value when present, otherwise the given default. */
    function GetOr(default: T): T {
      match this
      case Some(v) => v
      case None => default
    }
  }
}
