/** The optional value used for "a key byte was read" / "no byte pending". */
module Wrappers {

  datatype Option<+T> = None | Some(value: T)
}
