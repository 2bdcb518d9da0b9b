// The values `yaml.safe_load` hands to the scripts, with the two Python
// conversions the scripts apply to them: truthiness (`if value:`) and `str()`.

module YamlValue {
  import opened Strings

  /** A loaded YAML node; dates are kept as their ISO text. */
  datatype Value =
    | Null
    | Bool(b: bool)
    | Int(i: int)
    | Float(r: real)
    | Str(s: string)
    | Date(iso: string)
    | List(items: seq<Value>)
    | Mapping(fields: map<string, Value>)

  /** What reading one file and parsing it as YAML gave. */
  datatype LoadOutcome =
    | Unreadable(reason: string)     // the file could not be opened or decoded
    | SyntaxError(detail: string)    // yaml.YAMLError
    | Parsed(doc: Value)

  /** Python's truth value of a loaded node. */
  predicate Truthy(v: Value)
  {
    match v
    case Null => false
    case Bool(b) => b
    case Int(i) => i != 0
    case Float(r) => r != 0.0
    case Str(s) => s != ""
    case Date(_) => true
    case List(items) => items != []
    case Mapping(m) => m != map[]
  }

  /**
   * `str(v)` for the scalar nodes; None for floats and containers, whose
   * Python rendering is not part of this model.
   */
  function PyStr(v: Value): (r: Option<string>)
    ensures v.Str? ==> r == Some(v.s)
    ensures r.None? <==> v.Float? || v.List? || v.Mapping?
  {
    match v
    case Null => Some("None")
    case Bool(b) => Some(if b then "True" else "False")
    case Int(i) => Some(IntToString(i))
    case Str(s) => Some(s)
    case Date(iso) => Some(iso)
    case _ => None
  }

  /** `d.get(key)`: the node under `key`, or None (YAML null) when absent. */
  function Get(d: map<string, Value>, key: string): Value
  {
    if key in d then d[key] else Null
  }
}
