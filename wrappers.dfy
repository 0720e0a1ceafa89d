/** The optional value shared by the modules of the model. */
module Wrappers {

  /** A value that may be missing (an unparseable cell, an empty aggregate). */
  datatype Option<+T> = None | Some(value: T)
}
