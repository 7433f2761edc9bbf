/** Failure-carrying values used where the simulator can fail to find something. */
module Wrappers {

  /** An optional value: `None` stands for a missing key. */
  datatype Option<+T> = None | Some(value: T)
}
