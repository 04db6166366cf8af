/** Optional values: a factory argument or node field that may be `undefined`. */
module Wrappers {

  datatype Option<+T> = None | Some(value: T)
}
