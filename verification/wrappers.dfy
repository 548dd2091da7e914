/** Optional values: the scripts' `None` returns. */
module Wrappers {

  datatype Option<+T> = None | Some(value: T)
}
