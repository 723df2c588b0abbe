/** Small shared vocabulary. */
module Basics {

  datatype Option<+T> = None | Some(value: T)

  /** An error as the deferred write-back of a reconciler distinguishes it. */
  datatype Err = NoErr | Transient | Permanent
}
