/** Optional values: a score report that may or may not be made, parsed input that may be missing. */
module Wrappers {
  datatype Option<+T> = None | Some(value: T)
}
