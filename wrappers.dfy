/** The optional value used wherever the source calls `unwrap` or gets an `Option` back. */
module Wrappers {

  datatype Option<+T> = None | Some(value: T)
}
