/** Optional values: JavaScript's `undefined` where an expression may not yield one. */
module Wrappers {

  datatype Option<+T> = None | Some(value: T)

}
