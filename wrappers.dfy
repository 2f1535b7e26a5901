/** The Some/None datatype used for every field that a JSON record may omit
    (or carry as null) and for the dashboard's nullable state. */
module Wrappers {
  datatype Option<+T> = None | Some(value: T) {
    /** The wrapped value, or `default` when there is none. */
    function GetOr(default: T): T {
      match this
      case Some(v) => v
      case None => default
    }
  }
}
