/** The optional value used for every cell that can be missing (a pandas NaN). */
module Wrappers {

  datatype Option<+T> = None | Some(value: T) {

    /** The value, or `default` when missing (`Series.fillna(default)` on one cell). */
    function GetOr(default: T): T
    {
      match this
      case Some(v) => v
      case None => default
    }
  }
}
