/** The Option datatype used across the model for Python's `None`, C++'s
    `std::optional` and Qt's empty results. */
module Wrappers {

  datatype Option<+T> = None | Some(value: T) {

    /** The contained value, or `default` when there is none. */
    function GetOr(default: T): T {
      match this
      case Some(v) => v
      case None => default
    }
  }
}
