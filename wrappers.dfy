/** Optional values: a JavaScript `undefined` (an absent request field, a `null` error) is `None`. */
module Wrappers {
  datatype Option<+T> = None | Some(value: T)
}
