/** Parsed JSON values. */
module Json {
  import opened Text

  datatype Numeral = Whole(n: int) | Fractional(r: real)

  datatype Value =
    | Null
    | Bool(flag: bool)
    | Number(numeral: Numeral)
    | String(text: string)
    | Array(items: seq<Value>)
    | Object(fields: map<string, Value>)

  /** `Map::get`. */
  function Get(fields: map<string, Value>, key: string): Option<Value>
  {
    if key in fields then Some(fields[key]) else None
  }

  /** `Value::as_object` of an optional value. */
  function AsObject(value: Option<Value>): Option<map<string, Value>>
  {
    if value.Some? && value.value.Object? then Some(value.value.fields) else None
  }

  /** `Value::as_str` of an optional value. */
  function AsString(value: Option<Value>): Option<string>
  {
    if value.Some? && value.value.String? then Some(value.value.text) else None
  }

  // ----- positions inside a value

  datatype Selector = Item(index: nat) | Field(key: string)

  /** The value at a position, if the position exists. */
  function At(value: Value, path: seq<Selector>): Option<Value>
  {
    if path == [] then Some(value)
    else match (value, path[0])
      case (Array(items), Item(i)) => if i < |items| then At(items[i], path[1..]) else None
      case (Object(fields), Field(key)) => if key in fields then At(fields[key], path[1..]) else None
      case _ => None
  }
}
