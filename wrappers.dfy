/** Optional values: a Go `nil` slice versus a present (possibly empty) one. */
module Wrappers {
  datatype Option<+T> = None | Some(value: T)
}
