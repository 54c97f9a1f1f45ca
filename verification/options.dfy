/** Optional values: `None` stands for a JavaScript result that is not a usable number
    (NaN from a failed parse or a division by zero). */
module Options {

  datatype Option<+T> = None | Some(value: T) {

    /** The value, or `default` when there is none. */
    function GetOr(default: T): T {
      match this
      case Some(v) => v
      case None => default
    }
  }
}
