/** The optional type used for every nullable or absent property of the chat client. */
module Wrappers {

  /** `None` stands for a property that is `undefined` or `null`. */
  datatype Option<+T> = None | Some(value: T) {

    /** The value, or `default` when absent: the `x ?? default` of the client. */
    function GetOr(default: T): T {
      match this
      case Some(v) => v
      case None => default
    }
  }
}
