/** JSON-shaped values: what Go holds as `any` after decoding. */
module Values {
  datatype Value =
    | Null
    | Bool(flag: bool)
    | Int(number: int)
    | Float(decimal: real)
    | Str(text: string)
    | Arr(items: seq<Value>)
    | Obj(fields: Object)

  type Object = map<string, Value>
}
