/** A value that may be missing: a dictionary key that is absent, or a
    Python function that returns `None`. */
module Optional {

  datatype Option<+T> = None | Some(value: T) {

    /** `d.get(key, default)`. */
    function GetOr(default: T): T {
      match this
      case Some(v) => v
      case None => default
    }
  }
}
