/** Optional values and the outcome of a Python call that may raise. */
module Results {

  datatype Option<+T> = None | Some(value: T)

  /** A call either returns a value or raises; `message` is `str(e)` of the exception. */
  datatype Outcome<+T> = Returned(value: T) | Raised(message: string)

  /** `str(KeyError(key))`: the key in single quotes. */
  function KeyErrorMessage(key: string): (m: string)
    ensures |m| == |key| + 2 && m[0] == '\'' && m[|m| - 1] == '\''
    ensures m[1..|m| - 1] == key
  {
    "'" + key + "'"
  }
}
