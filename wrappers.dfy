/** Failure-carrying wrappers shared by every module of the model. */
module Wrappers {

  /** `Option<T>` of the source: a value that may be absent. */
  datatype Option<+T> = None | Some(value: T)

  /** `Result<T, E>` of the source: a value or an error that is returned to the caller. */
  datatype Result<+T, +E> = Ok(value: T) | Err(error: E)

  /**
   * How an operation that talks to a child process ends: it completes with a value,
   * it ends the run early with a reason, or it waits forever on a stream that never delivers
   * the next line. Ending early is mostly a panic (a `panic!`, an `unwrap` of an error or an
   * out-of-bounds index); graphs mode also ends this way when `run` returns an `io::Error`.
   */
  datatype Outcome<+T, +R> = Completed(value: T) | Panicked(reason: R) | Stuck
}
