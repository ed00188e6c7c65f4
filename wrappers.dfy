/** Optional values and results with an error, the shapes the scripts use for
    "element may be missing" and "this call may raise". */
module Wrappers {

  datatype Option<+T> = None | Some(value: T)

  datatype Result<+R, +E> = Success(value: R) | Failure(error: E)

  /** `m.get(k, default)` on a Python dictionary. */
  function GetOrDefault<K, V>(m: map<K, V>, k: K, default: V): (v: V)
    ensures k in m ==> v == m[k]
    ensures k !in m ==> v == default
  {
    if k in m then m[k] else default
  }
}
