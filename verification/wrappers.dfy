/** Optional values, used for nullable fields and for absent storage entries. */
module Wrappers {

  datatype Option<+T> = None | Some(value: T)
}
