/** Optional values, standing in for the `T | null` types of the page's state hooks. */
module Wrappers {

  datatype Option<+T> = None | Some(value: T)
}
