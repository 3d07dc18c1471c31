/** Optional values: a JSON field that may be absent, a response key that may be omitted. */
module Wrappers {

  datatype Option<+T> = None | Some(value: T)
}
