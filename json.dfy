/**
  JSON documents as the program sees them after `json.load`: null, booleans,
  integers, strings, arrays and objects. Floating-point numbers are not part
  of this model. Booleans are their own kind and are never integers, which
  is how the schema validator treats them.
 */
module Json {

  datatype Value =
    | Null
    | Bool(b: bool)
    | Int(i: int)
    | String(s: string)
    | Array(items: seq<Value>)
    | Object(fields: map<string, Value>)

  /** True when `v` is an object with a member `key`. */
  predicate HasField(v: Value, key: string)
  {
    v.Object? && key in v.fields
  }

  /** True when `v` is an object whose member `key` is an integer. */
  predicate HasIntField(v: Value, key: string)
  {
    HasField(v, key) && v.fields[key].Int?
  }

  /** True when `v` is an object whose member `key` is a string. */
  predicate HasStringField(v: Value, key: string)
  {
    HasField(v, key) && v.fields[key].String?
  }
}
