/** Optional values, used for Go's nil results. */
module Wrappers {
  datatype Option<+T> = None | Some(value: T)
}
