/** The part of `serde_json::Value` that the server reads: the value shapes and the
    `get`, `as_array`, `as_str` and `as_bool` accessors. */
module Json {
  import opened Common

  datatype Value =
    | Null
    | Bool(b: bool)
    | Number(n: int)
    | String(s: Str)
    | Array(elements: seq<Value>)
    | Object(fields: map<Str, Value>)

  /** `value.get(key)`: a field of an object; `None` for a missing key and for
      every value that is not an object. */
  function Get(v: Value, key: Str): (r: Option<Value>)
    ensures r.Some? <==> v.Object? && key in v.fields
    ensures r.Some? ==> r.value == v.fields[key]
  {
    match v
    case Object(fields) => if key in fields then Some(fields[key]) else None
    case _ => None
  }

  function AsArray(v: Value): Option<seq<Value>> {
    if v.Array? then Some(v.elements) else None
  }

  function AsStr(v: Value): Option<Str> {
    if v.String? then Some(v.s) else None
  }

  function AsBool(v: Value): Option<bool> {
    if v.Bool? then Some(v.b) else None
  }

  /** `Get` curried on its key, for use in `AndThen` chains. */
  function Field(key: Str): Value -> Option<Value> {
    v => Get(v, key)
  }
}
