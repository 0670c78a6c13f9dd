/** Optional values: a setting that may be absent, a decoder that may fail. */
module Wrappers {

  datatype Option<+T> = None | Some(value: T)
}
