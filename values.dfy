/** The values that variables and YAML configuration entries hold: the
    Python objects str, int, bool, None, list, tuple and dict (with string
    keys). Floating-point numbers are not modelled. */
module Values {

  datatype Value =
    | Str(s: string)
    | Int(i: int)
    | Bool(b: bool)
    | Null
    | List(items: seq<Value>)
    | Tuple(items: seq<Value>)
    | Dict(entries: map<string, Value>)
}
