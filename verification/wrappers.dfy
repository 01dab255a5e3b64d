/** Optional values: the model's stand-in for JavaScript's `undefined` / `null`
    and for "not found" results. */
module Wrappers {

  datatype Option<+T> = None | Some(value: T)
}
