/**
 JSON values, as the Go services hold them in `any` and `map[string]any`.
 Numbers are canonical, so equality of values is equality of their JSON texts.
 */
module JsonValues {
  import opened Wrappers

  type Fields = map<string, Json>

  datatype Json =
    | Null
    | Bool(b: bool)
    | Num(n: real)
    | Str(s: string)
    | Arr(items: seq<Json>)
    | Obj(fields: Fields)

  /** The value reached from `v` by following `keys` through nested objects. */
  function Lookup(v: Json, keys: seq<string>): Option<Json> {
    if keys == [] then Some(v)
    else if v.Obj? && keys[0] in v.fields then Lookup(v.fields[keys[0]], keys[1..])
    else None
  }

  /** The entries of a map whose keys are in `keys`. */
  function Only<V>(m: map<string, V>, keys: set<string>): map<string, V> {
    map k | k in m && k in keys :: m[k]
  }
}
