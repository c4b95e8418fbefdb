/** Option and Result: the model's stand-ins for pandas' missing values (NA)
    and for the Python exceptions and error messages of the source. */
module Wrappers {

  datatype Option<+T> = None | Some(value: T) {
    /** The value when present, otherwise the default: pandas' `fillna(d)` on one cell. */
    function GetOr(default: T): T {
      match this
      case Some(v) => v
      case None => default
    }
  }

  datatype Result<+T, +E> = Ok(value: T) | Err(error: E)
}
