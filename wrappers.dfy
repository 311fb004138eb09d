/** Optional values, for the fields a provider response may lack. */
module Wrappers {

  datatype Option<+T> = None | Some(value: T)
}
