/** Optional values: a Python argument or result that may be None. */
module Wrappers {

  datatype Option<+T> = None | Some(value: T)
}
