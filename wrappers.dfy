/** Optional values: a request field that may be absent, a lookup that may
    find nothing, a computation that may throw. */
module Wrappers {

  datatype Option<+T> = None | Some(value: T)
}
