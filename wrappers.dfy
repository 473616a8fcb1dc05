/** The optional value used wherever the source has a null or a missing result. */
module Wrappers {
  datatype Option<+T> = None | Some(value: T)
}
