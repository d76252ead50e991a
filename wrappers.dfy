/** The optional value used wherever the source has `None`, a missing key or a call that raised. */
module Wrappers {
  datatype Option<+T> = None | Some(value: T)
}
