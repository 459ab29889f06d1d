/**
 * Decoded JSON documents as a tagged union, the shape of every `response`
 * payload the parser receives.
 */
module Json {
  import opened Wrappers

  /** JSON scalars. Non-integer numbers are not distinguished from other atoms here. */
  datatype Atom = Null | Bool(b: bool) | Int(i: int) | Str(s: string)

  /** A JSON value: a scalar, an object (ordered fields) or an array. */
  datatype Value =
    | Scalar(atom: Atom)
    | Obj(fields: seq<(string, Value)>)
    | Arr(items: seq<Value>)

  /** A decoded JSON object, as Python's json module hands it over (a dict). */
  type Record = seq<(string, Value)>

  /** The value stored under `key` (first occurrence), as `d[key]` in Python. */
  function Find(fields: seq<(string, Value)>, key: string): (r: Option<Value>)
    ensures r.Some? ==> (key, r.value) in fields
    ensures r.None? ==> forall i :: 0 <= i < |fields| ==> fields[i].0 != key
  {
    if |fields| == 0 then None
    else if fields[0].0 == key then Some(fields[0].1)
    else Find(fields[1..], key)
  }

  /** The value reached by following the key path `path` through nested objects. */
  function At(v: Value, path: seq<string>): Option<Value>
  {
    if |path| == 0 then Some(v)
    else match v
      case Obj(fields) =>
        (match Find(fields, path[0])
          case Some(child) => At(child, path[1..])
          case None => None)
      case _ => None
  }
}
