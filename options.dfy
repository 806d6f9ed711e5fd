/** Optional values and the outcome of an awaited remote call. */
module Options {

  /** A JavaScript value that may be `null` or `undefined` (`None`). */
  datatype Option<+T> = None | Some(value: T) {
    function GetOr(default: T): T {
      match this
      case Some(v) => v
      case None => default
    }
  }

  /** How an awaited promise settled: resolved with a value, or rejected (the `catch` branch). */
  datatype Remote<+T> = Resolved(value: T) | Rejected
}
