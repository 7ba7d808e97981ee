/** The result of a search or of a read that may fail. */
module Wrappers {

  datatype Option<+T> = None | Some(value: T)
}
