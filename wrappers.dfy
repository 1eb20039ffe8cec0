/** Failure-carrying results for the operations that abort in the source (`assert!`, `panic!`,
    `unimplemented!`, an out-of-bounds index). */
module Wrappers {

  datatype Option<+T> = None | Some(value: T)

  datatype Result<+T, +E> = Ok(value: T) | Err(error: E)
}
