/** Nullable values: a SQL NULL, a missing row or a missing request field. */
module Wrappers {

  datatype Option<+T> = None | Some(value: T)
}
