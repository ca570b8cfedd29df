/** The optional value used wherever the bot's code reads a field that may be
    `undefined`, or a lookup that may find nothing. */
module Wrappers {

  datatype Option<+T> = None | Some(value: T) {

    /** `x || fallback` on a value that is either present or `undefined`. */
    function GetOr(default: T): T {
      match this
      case Some(v) => v
      case None => default
    }
  }
}
