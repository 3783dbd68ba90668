/** The optional value used for ISUPPORT flags (Python's `None`) and search results. */
module Wrappers {
  datatype Option<+T> = None | Some(value: T)
}
