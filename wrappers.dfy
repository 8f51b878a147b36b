/** Option, standing for a JavaScript value that may be null (or, for a
    parsed number, NaN). */
module Wrappers {
  datatype Option<+T> = None | Some(value: T)
}
