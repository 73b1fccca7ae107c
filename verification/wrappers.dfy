/** The usual optional value, for decoders that may refuse their input. */
module Wrappers {

  datatype Option<+T> = None | Some(value: T)
}
