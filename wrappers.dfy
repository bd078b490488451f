/** Optional values: an element the page may lack, an attribute that may be absent. */
module Wrappers {

  datatype Option<+T> = None | Some(value: T)
}
