/** An optional value: a stored key that may be absent, or a parse that may fail. */
module Options {

  datatype Option<T> = None | Some(value: T) {

    /** The value held, or `default` when there is none (as `getLong(key, default)` reads a key). */
    function GetOr(default: T): (r: T)
      ensures Some? ==> r == value
      ensures None? ==> r == default
    {
      match this
      case Some(v) => v
      case None => default
    }
  }
}
