/** Optional values: a Python `None` or a present value. */
module Wrappers {

  datatype Option<T> = None | Some(value: T) {

    /** The value when present, otherwise the given default (Python's `dict.get(key, default)`). */
    function GetOr(default: T): (r: T)
      ensures Some? ==> r == value
      ensures None? ==> r == default
    {
      match this
      case Some(v) => v
      case None => default
    }
  }
}
