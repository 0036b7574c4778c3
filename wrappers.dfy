/** Optional values, standing for the source's `null` results and `-1` / `Integer.MAX_VALUE` sentinels. */
module Wrappers {
  datatype Option<T> = None | Some(value: T)
}
