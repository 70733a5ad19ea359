/** Optional values, for Python's `None`-or-value and for dictionary
    lookups that may miss. */
module Wrappers {
  datatype Option<+T> = None | Some(value: T)
}
