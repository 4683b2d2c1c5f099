/** The optional value used where the source stores `None`. */
module Wrappers {

  datatype Option<+T> = None | Some(value: T)
}
