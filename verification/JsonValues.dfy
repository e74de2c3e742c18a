/** JSON values as `serde_json::Value` holds them; a number keeps its text. */
module JsonValues {
  datatype Json =
    | Null
    | Bool(b: bool)
    | Number(text: string)
    | Str(s: string)
    | Arr(items: seq<Json>)
    | Obj(fields: map<string, Json>)
  {
    /** `value[key]`: null when there is no such object field. */
    function Get(key: string): Json {
      if Obj? && key in fields then fields[key] else Null
    }

    /** `value[key] = x`, which panics on anything but an object here. */
    function Set(key: string, x: Json): Json
      requires Obj?
    {
      Obj(fields[key := x])
    }

    /** `value.as_array().into_iter().flatten()`. */
    function Elements(): seq<Json> {
      if Arr? then items else []
    }
  }
}
