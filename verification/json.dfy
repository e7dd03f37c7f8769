/** JSON documents as exchanged by every client and the server.  Parsing
    and serialisation are library code (Python's `json`, nlohmann::json,
    QJsonDocument); the model treats them as given functions and works on
    the parsed value. */
module Json {
  import opened Wrappers

  datatype Value =
    | Null
    | Bool(b: bool)
    | Num(n: int)
    | Str(s: string)
    | Arr(items: seq<Value>)
    | Obj(fields: map<string, Value>)

  type Object = map<string, Value>

  /** `obj.get(key)` / `obj.contains(key) ? obj[key] : none`. */
  function Get(o: Object, key: string): (r: Option<Value>)
    ensures r.Some? <==> key in o
    ensures r.Some? ==> r.value == o[key]
  {
    if key in o then Some(o[key]) else None
  }

  /** The string under `key`, when present and a string. */
  function GetStr(o: Object, key: string): (r: Option<string>)
    ensures r.Some? <==> key in o && o[key].Str?
    ensures r.Some? ==> o[key] == Str(r.value)
  {
    if key in o && o[key].Str? then Some(o[key].s) else None
  }

  /** Python's truthiness of a decoded JSON value (`bool(v)`). */
  predicate Truthy(v: Value) {
    match v
    case Null => false
    case Bool(b) => b
    case Num(n) => n != 0
    case Str(s) => s != ""
    case Arr(items) => items != []
    case Obj(fields) => fields != map[]
  }

  /** Python's `obj.get(key, default)` followed by a truth test. */
  predicate TruthyOr(o: Object, key: string, default: bool) {
    if key in o then Truthy(o[key]) else default
  }
}
