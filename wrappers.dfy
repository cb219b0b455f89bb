/** Optional values: `None` stands for the source's not-found or failure result. */
module Wrappers {

  datatype Option<+T> = None | Some(value: T)

}
