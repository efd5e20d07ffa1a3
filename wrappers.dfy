/** The optional value used wherever the store holds `null` or a lookup may find nothing. */
module Wrappers {
  datatype Option<+T> = None | Some(value: T)
}
