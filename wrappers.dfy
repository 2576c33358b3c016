/** Small value types shared by the modules: Python's `None`-or-value results
    and the loosely typed cells of an incoming request record. */
module Wrappers {

  /** The result of a dictionary `.get(key)`: `None` when the key is absent. */
  datatype Option<+T> = None | Some(value: T)

  /** `m.get(k)`. */
  function Get<K, V>(m: map<K, V>, k: K): (r: Option<V>)
    ensures r.Some? <==> k in m
    ensures r.Some? ==> r.value == m[k]
  {
    if k in m then Some(m[k]) else None
  }

  /** `m.get(k, default)`, where the default may itself be a missing entry. */
  function GetOr<K, V>(m: map<K, V>, k: K, default: Option<V>): (r: Option<V>)
    ensures k in m ==> r == Some(m[k])
    ensures k !in m ==> r == default
  {
    if k in m then Some(m[k]) else default
  }

  /** One cell of a request record as Python sees it: `None`, a string, or any
      other value (a number, NaN, a boolean) together with its truthiness. */
  datatype Field = Null | Text(s: string) | Other(truthy: bool)

  /** Python truthiness of a cell (`if feature:`). */
  predicate Truthy(f: Field)
  {
    match f
    case Null => false
    case Text(s) => s != ""
    case Other(b) => b
  }
}
