/** Optional values: a JavaScript `undefined`, or a lookup that may fail. */
module Wrappers {

  datatype Option<+T> = None | Some(value: T)
}
