/** Optional values, used for the outcome of an external call that may raise. */
module Wrappers {

  /** `None` stands for a call that raised; `Some(v)` for one that returned `v`. */
  datatype Option<+T> = None | Some(value: T)
}
