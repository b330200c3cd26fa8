/** Optional values, standing for a JavaScript or Python operation that may throw. */
module Wrappers {
  datatype Option<+T> = None | Some(value: T)
}
