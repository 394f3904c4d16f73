/** The values `json.loads` can produce. Parsing itself is not modelled:
    the operations that parse take the parser as a parameter, a partial
    function from text to `Json` that answers `None` where `json.loads`
    raises `JSONDecodeError`. */
module JsonValue {

  datatype Json =
    | Null
    | Bool(b: bool)
    | Number(literal: string)
    | Str(s: string)
    | Array(items: seq<Json>)
    | Object(members: seq<(string, Json)>)
}
