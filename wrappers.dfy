/** Optional values: a JavaScript `null`/`undefined` or a missing object key. */
module Wrappers {

  datatype Option<+T> = None | Some(value: T)
}
