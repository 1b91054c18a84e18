/** The optional-value datatype used for JavaScript's "maybe absent" values:
    an error-record key that may be missing, or a user field that may be
    `undefined`/`null`. */
module Wrappers {

  datatype Option<+T> = None | Some(value: T) {

    /** Returns the value in Some, or the given default for None */
    function GetOr(default: T): T {
      match this
      case Some(v) => v
      case None => default
    }
  }
}
