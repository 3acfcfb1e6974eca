/** The failure-free part of the usual Option vocabulary, shared by every module. */
module Wrappers {

  /** A JavaScript value that may be absent: a missing Map entry, `undefined` or `null`. */
  datatype Option<+T> = None | Some(value: T) {

    /** The JavaScript `??` operator. */
    function GetOr(default: T): T {
      match this
      case Some(v) => v
      case None => default
    }
  }

  /** `Map.get`. */
  function Get<K, V>(m: map<K, V>, k: K): Option<V> {
    if k in m then Some(m[k]) else None
  }
}
