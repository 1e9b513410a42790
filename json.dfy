/** JSON values as the Python scripts see them after `json.load`/`json.loads`, with Python's truthiness. */
module Json {

  datatype Value =
    | Null
    | Bool(b: bool)
    | Num(n: real)
    | Str(s: string)
    | Arr(items: seq<Value>)
    | Obj(fields: map<string, Value>)

  /** Python's `bool(v)`: None, False, zero, and empty strings, lists and dicts are falsy. */
  predicate Truthy(v: Value) {
    match v
    case Null => false
    case Bool(b) => b
    case Num(n) => n != 0.0
    case Str(s) => s != []
    case Arr(items) => items != []
    case Obj(fields) => fields != map[]
  }

  /** Python's `d.get(name)` on a dict: the value, or None when the key is absent. */
  function Get(fields: map<string, Value>, name: string): Value {
    GetOr(fields, name, Null)
  }

  /** `dict.get(name, default)`. */
  function GetOr(fields: map<string, Value>, name: string, default: Value): Value {
    if name in fields then fields[name] else default
  }
}
