/** The optional value used wherever the source has a null pointer, a failed
    receive, a missing file or a failed conversion. */
module Wrappers {
  datatype Option<+T> = None | Some(value: T)
}
