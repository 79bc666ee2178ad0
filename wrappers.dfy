/** Optional values, used wherever the source returns a null pointer or "not found". */
module Wrappers {
  datatype Option<T> = None | Some(value: T)
}
