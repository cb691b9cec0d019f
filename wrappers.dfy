/** Optional values, for "absent" results such as a missing file or a missing map entry. */
module Wrappers {
  datatype Option<+T> = None | Some(value: T)
}
