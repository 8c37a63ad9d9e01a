/** Optional values: a pandas cell that may be NaN, a dict lookup that may miss. */
module Wrappers {

  datatype Option<+T> = None | Some(value: T)
}
