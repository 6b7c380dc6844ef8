/** Decoded JSON, as Go's `encoding/json` leaves it in an `any`. */
module Json {

  datatype Option<+T> = None | Some(value: T)

  datatype Json =
    | Null
    | Bool(b: bool)
    | Number(n: real)
    | Text(s: string)
    | Array(items: seq<Json>)
    | Object(fields: map<string, Json>)
  {
    /** `v.(string)`, with the zero value on failure. */
    function AsText(): string {
      if Text? then s else ""
    }

    /** A field of an object; null when there is none. */
    function Get(key: string): Json {
      if Object? && key in fields then fields[key] else Null
    }
  }
}
