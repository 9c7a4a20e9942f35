/** Optional values: `None` stands for a missing or failed result. */
module Wrappers {

  datatype Option<+T> = None | Some(value: T)
}
