/** Optional values: a verdict that a probe may or may not reach. */
module Wrappers {

  datatype Option<+T> = None | Some(value: T)
}
