/** Optional values, used for values the script keeps as `None` or a string. */
module Wrappers {
  datatype Option<+T> = None | Some(value: T)
}
