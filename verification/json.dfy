/** The dynamically typed field values shared by the three bindings (serde_json's `Value`,
    Go's `interface{}` as produced by `encoding/json`, Python's JSON-decoded objects). */
module Json {
  /** One JSON value. Integers and floating-point numbers are kept apart because the type
      checks of the validators and serde_json's equality distinguish them; floating-point
      numbers are modelled as exact reals. */
  datatype Value =
    | Null
    | Bool(b: bool)
    | Int(i: int)
    | Float(f: real)
    | Str(s: string)
    | Arr(items: seq<Value>)
    | Obj(fields: map<string, Value>)

  /** A stored document: a flat mapping from field name to value. */
  type Doc = map<string, Value>
}
