/** A value that may be missing: pandas' NaN in a column, or an unset selector. */
module Wrappers {

  datatype Option<+T> = None | Some(value: T)
}
