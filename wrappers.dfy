/** Option and Result, the two failure-carrying values the model uses. */
module Wrappers {

  datatype Option<+T> = None | Some(value: T) {
    /** The carried value, or `default` for `None` (Rust's `unwrap_or`). */
    function GetOr(default: T): T
    {
      match this
      case Some(v) => v
      case None => default
    }
  }

  /** A value or the error that stopped its computation (Rust's `anyhow::Result`). */
  datatype Result<+T, +E> = Ok(value: T) | Err(error: E)
}
