/** The Some/None datatype used for Python's `None`-or-value results. */
module Options {

  datatype Option<+T> = None | Some(value: T) {

    /** Returns the value in Some, or the given default for None
        (Python's `d.get(key, default)` once the lookup is done). */
    function GetOr(default: T): T
    {
      match this
      case Some(v) => v
      case None => default
    }
  }
}
