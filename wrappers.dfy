/** A value that may be absent: Python's None, an SQL NULL, a file not uploaded. */
module Wrappers {

  datatype Option<+T> = None | Some(value: T)
}
