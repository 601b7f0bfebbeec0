/** Optional values: `undefined`/`null` on the JavaScript side. */
module Wrappers {
  datatype Option<+T> = None | Some(value: T)
}
