/** Values that may be absent: the source's NULL returns and error codes. */
module Wrappers {
  datatype Option<+T> = None | Some(value: T)
}
