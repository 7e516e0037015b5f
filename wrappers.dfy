/** The optional value used where the client returns `None`. */
module Wrappers {

  datatype Option<+T> = None | Some(value: T)
}
