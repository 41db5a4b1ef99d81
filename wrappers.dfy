/** Optional values: a TypeScript `T | undefined`. */
module Wrappers {
  datatype Option<+T> = None | Some(value: T)
}
