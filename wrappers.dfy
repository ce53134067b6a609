/** Failure-carrying values shared by every module of the model. */
module Wrappers {

  /** An optional value: Rust's `Option`, TypeScript's `T | undefined`. */
  datatype Option<+T> = None | Some(value: T) {

    /** The value, or `default` when there is none (`unwrap_or`, `??`). */
    function GetOr(default: T): T {
      match this
      case Some(v) => v
      case None => default
    }

    /** This value when present, otherwise `other` (`Option::or`). */
    function Or(other: Option<T>): Option<T> {
      if Some? then this else other
    }
  }

  /** A success value or an error: Rust's `Result<T, String>`. */
  datatype Result<+T, +E> = Ok(value: T) | Err(error: E)

  /** Rust's `()`, the value of an operation that only succeeds or fails. */
  datatype Unit = Unit
}
