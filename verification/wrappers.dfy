/** Optional values: an absent annotation, an absent file, a passing verdict. */
module Wrappers {

  datatype Option<+T> = None | Some(value: T)
}
