/**
 The Python values `json.loads` can hand back, and the dictionary lookup the
 bot performs on them. Parsing itself is not modelled: the parser is a
 parameter of the operations that use it.
 */
module Json {

  /** A decoded JSON document as Python sees it; `Null` is Python's `None`. */
  datatype Value =
    | Null
    | Bool(b: bool)
    | Int(i: int)
    | Float(x: real)
    | Str(s: string)
    | Array(items: seq<Value>)
    | Object(fields: map<string, Value>)

  /** The Python type name of a decoded value, as it appears in CPython's `AttributeError` messages. */
  function TypeName(v: Value): (name: string)
    ensures name == "dict" <==> v.Object?
  {
    match v
    case Null => "NoneType"
    case Bool(_) => "bool"
    case Int(_) => "int"
    case Float(_) => "float"
    case Str(_) => "str"
    case Array(_) => "list"
    case Object(_) => "dict"
  }

  /** Python's `d.get(key, default)`: a present key yields its value, even `None`; a missing one yields `default`. */
  function Get(fields: map<string, Value>, key: string, default: Value): (r: Value)
    ensures key in fields ==> r == fields[key]
    ensures key !in fields ==> r == default
  {
    if key in fields then fields[key] else default
  }
}
