/** Optional values: a DOM lookup that may find nothing, a navigation that may fail. */
module Wrappers {
  datatype Option<+T> = None | Some(value: T)
}
