// Optional values, for the source's null, None and missing keys.
module Wrappers {
  datatype Option<+T> = None | Some(value: T)
}
