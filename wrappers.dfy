/** Optional values: a header or a body field that may be absent. */
module Wrappers {

  datatype Option<+T> = None | Some(value: T)
}
