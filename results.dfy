/** Option and Result, the two shapes the modelled Rust code returns. */
module Results {

  datatype Option<+T> = None | Some(value: T) {
    /** Rust's `Option::unwrap_or`. */
    function UnwrapOr(default: T): T {
      match this
      case Some(v) => v
      case None => default
    }
  }

  /** Rust's `Result<T, String>`: the error side always carries a message. */
  datatype Result<+T> = Ok(value: T) | Err(error: string)
}
