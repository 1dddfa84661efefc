/** Optional values, used for a fetch that may fail and a parse that may be refused. */
module Wrappers {

  datatype Option<+T> = None | Some(value: T)
}
