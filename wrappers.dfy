/** The optional value used where the source tests a string for emptiness. */
module Wrappers {

  datatype Option<+T> = None | Some(value: T)

}
