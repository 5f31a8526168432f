/** Optional values: a source field that may be missing (NaN in the CSV). */
module Wrappers {
  datatype Option<+T> = None | Some(value: T)
}
