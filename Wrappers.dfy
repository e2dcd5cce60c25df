/** Optional values: a JSON field that may be absent from an API response. */
module Wrappers {

  datatype Option<+T> = None | Some(value: T)
}
