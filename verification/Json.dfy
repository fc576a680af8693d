/** JSON values; object keys are strings. */
module Json {

  datatype Value =
    | Null
    | Bool(b: bool)
    | Number(n: real)
    | String(s: string)
    | List(items: seq<Value>)
    | Object(fields: map<string, Value>)
}
