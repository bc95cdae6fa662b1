/** Optional values, used wherever the modelled code has `undefined`, `null` or a failed match. */
module Wrappers {
  datatype Option<+T> = None | Some(value: T)
}
