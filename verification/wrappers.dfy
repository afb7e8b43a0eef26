/** Optional values, standing in for Python's `None`. */
module Wrappers {

  /** `None` where the source has `None`, `Some(v)` otherwise. */
  datatype Option<+T> = None | Some(value: T)
}
