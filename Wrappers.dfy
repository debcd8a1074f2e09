/** The Option type used for every value the page may or may not supply. */
module Wrappers {

  /** A value that may be absent: JavaScript's `null` for a DOM read that found nothing. */
  datatype Option<+T> = None | Some(value: T) {

    /** The value, or `default` when there is none. */
    function GetOr(default: T): T {
      match this
      case Some(v) => v
      case None => default
    }
  }
}
