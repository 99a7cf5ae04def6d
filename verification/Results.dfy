/** Optional values and outcomes shared by every module. */
module Results {
  datatype Option<+T> = None | Some(value: T) {
    function GetOr(default: T): T {
      if Some? then value else default
    }
  }

  /** What a Rust `Result` carries here: the value, or the fact that the call failed. */
  datatype Outcome<+T, +E> = Ok(value: T) | Err(error: E)
}
