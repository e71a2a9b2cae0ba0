/** The optional-value datatype shared by the decoders. */
module Wrappers {

  datatype Option<+T> = None | Some(value: T)
}
