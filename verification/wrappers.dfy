/** Optional values: the results of provider calls that may fail, and a session's ending. */
module Wrappers {

  /** An answer that may be missing: a provider call that failed, or a session that has not ended. */
  datatype Option<+T> = None | Some(value: T)
}
