/** Optional values: a null pointer or shared_ptr in the source becomes None. */
module Wrappers {
  datatype Option<+T> = None | Some(value: T)
}
