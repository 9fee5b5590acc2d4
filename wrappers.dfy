/** Small value wrappers shared by the board modules. */
module Wrappers {

  /** A value that may be absent: JavaScript's `undefined`/`null` for the
      drop destination and for a snapshot that could not be loaded. */
  datatype Option<+T> = None | Some(value: T) {

    /** The wrapped value, or `default` when there is none (`x || default`). */
    function GetOr(default: T): T {
      match this
      case Some(v) => v
      case None => default
    }
  }
}
