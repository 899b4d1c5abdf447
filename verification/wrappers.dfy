/** The optional value used wherever the bot's Python code has "a value or nothing":
    a missing dictionary entry, a missing list element, a number that does not parse. */
module Wrappers {

  datatype Option<+T> = None | Some(value: T) {

    /** Returns the wrapped value, or `default` when there is none. */
    function GetOr(default: T): T {
      match this
      case Some(v) => v
      case None => default
    }
  }
}
