/** The optional value used for oracle answers that may be missing. */
module Wrappers {

  datatype Option<+T> = None | Some(value: T)
}
