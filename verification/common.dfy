/** Optional values and fallible results shared by every module of the model. */
module Common {

  /** A JavaScript value that may be `undefined` or `null` (None) or present (Some). */
  datatype Option<+T> = None | Some(value: T) {

    /** The present value, or `default` when absent. */
    function GetOr(default: T): T {
      match this
      case Some(v) => v
      case None => default
    }
  }

  /** The outcome of a computation that can throw: a value, or the reason it threw. */
  datatype Result<+T> = Ok(value: T) | Err(reason: string)
}
