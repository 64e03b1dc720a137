/** Optional values: the "was anything found?" outputs of the C++ code. */
module Wrappers {
  datatype Option<T> = None | Some(value: T)
}
