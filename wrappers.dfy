/** Optional values: a read from the store either yields a byte or fails. */
module Wrappers {
  datatype Option<+T> = None | Some(value: T)
}
