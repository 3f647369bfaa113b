/** Optional values: an address that may be NULL, an allocation that may fail. */
module Wrappers {
  datatype Option<+T> = None | Some(value: T)
}
