/** Optional values: the model's stand-in for a null pointer or an absent entry. */
module Wrappers {

  datatype Option<+T> = None | Some(value: T)
}
