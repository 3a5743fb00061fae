/** Option and Result, the shapes Rust's `Option<T>` and `Result<T, E>` take here. */
module Wrappers {

  datatype Option<+T> = None | Some(value: T) {

    /** `unwrap_or_default`-style access: the value, or `default` when absent. */
    function GetOr(default: T): T {
      match this
      case Some(v) => v
      case None => default
    }
  }

  datatype Result<+R, +E> = Success(value: R) | Failure(error: E)
}
