/** Optional values, for lookups that may find nothing (Python's `dict.get` returning None). */
module Wrappers {

  datatype Option<+T> = None | Some(value: T)
}
