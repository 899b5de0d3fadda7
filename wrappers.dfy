/** The optional value used wherever the reader may find nothing. */
module Wrappers {

  datatype Option<+T> = None | Some(value: T)
}
