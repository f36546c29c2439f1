/** Optional values, for null pointers, missing results and None. */
module Wrappers {

  datatype Option<+T> = None | Some(value: T)
}
