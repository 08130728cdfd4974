/** The usual Some/None datatype, used where the program has no value to give. */
module Wrappers {

  datatype Option<+T> = None | Some(value: T)
}
