/** Optional values, used for nullable inputs and results. */
module Wrappers {
  datatype Option<+T> = None | Some(value: T)
}
