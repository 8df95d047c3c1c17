/** A value that may be missing: a nil pointer, a query without a row, a timer that is not armed. */
module Wrappers {

  datatype Option<T> = None | Some(value: T)
}
