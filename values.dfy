/** Optional values and success/failure results, the shapes the integration's
    dictionaries (`.get(...)` may find nothing) and exceptions take here. */
module Values {

  datatype Option<+T> = None | Some(value: T) {
    /** `dict.get(key, default)`: the value if present, the default otherwise. */
    function GetOr(default: T): (r: T)
      ensures Some? ==> r == value
      ensures None? ==> r == default
    {
      match this
      case Some(v) => v
      case None => default
    }
  }

  datatype Result<+R, +E> = Success(value: R) | Failure(error: E)
}
