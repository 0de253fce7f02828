/** Optional values, for the decisions of the trainer that can fail. */
module Wrappers {
  datatype Option<T> = None | Some(value: T)
}
