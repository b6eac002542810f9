/** Optional values, used wherever the source returns `None` or an absent row. */
module Wrappers {

  datatype Option<+T> = None | Some(value: T)
}
