/** The optional value used for the nullable columns of the catalog. */
module Wrappers {

  /** `None` plays the part of a missing (NaN) cell. */
  datatype Option<+T> = None | Some(value: T) {

    /** The value, or `default` when missing (pandas `fillna`). */
    function GetOr(default: T): T {
      match this
      case Some(v) => v
      case None => default
    }
  }
}
