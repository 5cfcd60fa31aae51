/** The optional value used for the tracker's nullable fields. */
module Wrappers {

  datatype Option<+T> = None | Some(value: T)
}
