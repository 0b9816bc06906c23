/** The optional value used wherever the store may have no entry for a key. */
module Wrappers {

  datatype Option<+T> = None | Some(value: T)
}
