/** The optional value used for the host's "may fail" reads. */
module Wrappers {
  datatype Option<+T> = None | Some(value: T)
}
