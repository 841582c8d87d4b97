/** The optional value used wherever the program reads a property that may be
    absent (`undefined`, `null`) or a lookup that may find nothing. */
module Wrappers {

  datatype Option<+T> = None | Some(value: T) {

    /** The carried value, or `default` when there is none. */
    function GetOr(default: T): T {
      match this
      case Some(v) => v
      case None => default
    }
  }
}
