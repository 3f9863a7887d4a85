/** Optional values, used where the source reports "no result" through a bool. */
module Wrappers {
  datatype Option<+T> = None | Some(value: T)
}
