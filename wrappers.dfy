/** Optional values, for results the source leaves undefined (a division by zero). */
module Wrappers {
  datatype Option<T> = None | Some(value: T)
}
