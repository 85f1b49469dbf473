/** Optional values, used where the tracker may have nothing to show. */
module Wrappers {

  /** A value that may be absent, such as the snapshot of an account with no rows. */
  datatype Option<+T> = None | Some(value: T)
}
