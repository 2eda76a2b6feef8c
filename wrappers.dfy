/** Optional values, used for conversions and calls that may fail. */
module Wrappers {

  datatype Option<+T> = None | Some(value: T)
}
