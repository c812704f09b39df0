/** Optional values, used for `getAttribute` results that may be `null`. */
module Wrappers {

  datatype Option<+T> = None | Some(value: T)
}
