/** The optional-value datatype used for lookups that can miss: a ray that hits
    nothing, a terrain that is not set, a query with no match. */
module Wrappers {

  datatype Option<+T> = None | Some(value: T) {

    /** The wrapped value, falling back to `default` for a missing one */
    function GetOr(default: T): T {
      match this
      case Some(v) => v
      case None => default
    }
  }
}
