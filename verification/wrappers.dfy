/** Optional values, used for JavaScript's `null` / `undefined` and for partial parses. */
module Wrappers {

  datatype Option<+T> = None | Some(value: T)
}
