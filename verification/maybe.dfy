/** Optional values and success-or-error results, used in place of
    JavaScript's `null` returns and thrown exceptions. */
module Maybe {

  datatype Option<+T> = None | Some(value: T)
  {
    function GetOr(default: T): T
    {
      match this
      case Some(v) => v
      case None => default
    }
  }

  /** The outcome of an operation that either completes with a value or
      throws; `Err` carries the error message. */
  datatype Result<+T> = Ok(value: T) | Err(message: string)
}
