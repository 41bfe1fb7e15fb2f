/** The optional value used wherever the monitor may find nothing or fail. */
module Wrappers {
  datatype Option<+T> = None | Some(value: T)

  /** Why reading a file failed: it could not be opened, or it ended before a newline. */
  datatype IoError = OpenFailed | ReadFailed
}
