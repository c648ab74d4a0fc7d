/**
  The values the orchestration engine moves around: what `json.loads`
  returns for a plan, the payloads handed to tools and the values tools
  return (Python `None`, `bool`, `int`, `float`, `str`, `list`, `dict`).
 */
module Json {
  import opened Wrappers
  import PyInt

  datatype Value =
    | Null
    | Bool(b: bool)
    | Int(i: int)
    | Float(f: real)
    | Str(s: string)
    | List(items: seq<Value>)
    | Dict(fields: map<string, Value>)

  /** Python truthiness: `None`, `False`, zero, and empty texts and containers are false. */
  predicate Truthy(v: Value) {
    match v
    case Null => false
    case Bool(b) => b
    case Int(i) => i != 0
    case Float(f) => f != 0.0
    case Str(s) => s != ""
    case List(items) => items != []
    case Dict(fields) => fields != map[]
  }

  /** `d.get(key)`: the value under `key`, or `None` when the key is absent. */
  function Get(fields: map<string, Value>, key: string): Value {
    if key in fields then fields[key] else Null
  }

  /**
    Python's `str(v)`. Texts, `None`, booleans and integers are rendered as
    Python renders them; the rendering of floats, lists and dicts (their
    `repr`) is left to `repr`.
   */
  function PyStr(v: Value, repr: Value -> string): string {
    match v
    case Str(s) => s
    case Null => "None"
    case Bool(b) => if b then "True" else "False"
    case Int(i) => PyInt.IntToDecimal(i)
    case _ => repr(v)
  }

  /** `int(str(n)) == n` holds for integer values whatever `repr` is. */
  lemma PyStrIntRoundTrip(n: int, repr: Value -> string)
    ensures PyInt.ParseInt(PyStr(Int(n), repr)) == Some(n)
  {
    PyInt.IntRoundTrip(n);
  }
}
