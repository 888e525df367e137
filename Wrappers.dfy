/** Optional values: the model's stand-in for Go's `(value, error)` pairs where
    the error's content does not matter, and for nil pointers. */
module Wrappers {

  datatype Option<+T> = None | Some(value: T)
}
