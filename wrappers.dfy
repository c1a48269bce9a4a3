/** Failure-carrying values used in place of the source's exceptions. */
module Wrappers {

  datatype Option<+T> = None | Some(value: T) {
    /** The value, or `d` when there is none: Python's `dict.get(key, d)`. */
    function GetOr(d: T): T {
      if Some? then value else d
    }
  }

  datatype Result<+R, +E> = Ok(value: R) | Err(error: E)
}
