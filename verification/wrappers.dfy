/** The missing-value marker of the pipeline: a cell is either present or
    missing (pandas' NaN, and the infinities the script turns into NaN). */
module Wrappers {

  datatype Option<+T> = None | Some(value: T) {

    /** The value, or `default` when the cell is missing. */
    function GetOr(default: T): T {
      match this
      case Some(v) => v
      case None => default
    }
  }
}
