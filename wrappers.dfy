/** Optional values: a file whose read failed, a prefix that was not given. */
module Wrappers {

  datatype Option<+T> = None | Some(value: T)
}
