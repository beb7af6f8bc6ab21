/** Python's `Optional` / JavaScript's `null`: a value that may be missing. */
module Optional {

  datatype Option<+T> = None | Some(value: T) {

    /** `x ?? fallback` (and `dict.get(key, fallback)`). */
    function GetOr(fallback: T): T {
      match this
      case Some(v) => v
      case None => fallback
    }
  }
}
