/** Optional values: a cell that may be null or undefined, a search that may find nothing. */
module Wrappers {
  datatype Option<T> = None | Some(value: T)
}
