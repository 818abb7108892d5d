/** Small shared datatypes. */
module Util {

  /** A value that may be absent: JavaScript's `null`/`undefined` (and, for parsed numbers, `NaN`). */
  datatype Option<+T> = None | Some(value: T) {

    /** The wrapped value, or the default when absent (JavaScript's `x ?? d`). */
    function GetOr(default: T): T {
      match this
      case Some(v) => v
      case None => default
    }
  }

  /** The value a map holds for a key, or the default when the key is absent (`m.get(k) || d`
      for maps whose stored values are never falsy). */
  function GetOrDefault<K, V>(m: map<K, V>, k: K, default: V): (v: V)
    ensures k in m ==> v == m[k]
    ensures k !in m ==> v == default
  {
    if k in m then m[k] else default
  }
}
