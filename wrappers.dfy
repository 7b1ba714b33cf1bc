/** The optional value used wherever the source returns None or a match object. */
module Wrappers {

  datatype Option<+T> = None | Some(value: T)
}
