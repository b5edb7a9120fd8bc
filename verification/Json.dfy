/** JSON values as Python holds them. A dict is a map: Python compares dicts without
    regard to the order of their keys, and so does every result below. */
module Json {
  import opened Text

  datatype Json =
    | Null
    | Bool(flag: bool)
    | Num(value: real)
    | Str(text: string)
    | Arr(items: seq<Json>)
    | Obj(fields: map<string, Json>)

  /** bool(value) */
  predicate Truthy(j: Json) {
    match j
    case Null => false
    case Bool(b) => b
    case Num(n) => n != 0.0
    case Str(s) => s != ""
    case Arr(items) => items != []
    case Obj(fields) => fields != map[]
  }

  /** dict.get(key): None and an absent key are the same. */
  function Field(fields: map<string, Json>, key: string): Json {
    if key in fields then fields[key] else Null
  }

  /** The value at a path of keys, None where the path leaves the tree. */
  function At(j: Json, path: seq<string>): Option<Json>
    decreases |path|
  {
    if path == [] then Some(j)
    else if j.Obj? && path[0] in j.fields then At(j.fields[path[0]], path[1..])
    else None
  }

  /** str(value or ""): `show` is str() on values that are not strings. */
  function TextOf(j: Json, show: Json -> string): string {
    if !Truthy(j) then "" else if j.Str? then j.text else show(j)
  }

  /** value if it is a dict, else {} */
  function DictOrEmpty(j: Json): map<string, Json> {
    if j.Obj? then j.fields else map[]
  }
}
