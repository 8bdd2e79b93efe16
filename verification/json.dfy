/** The values `JSON.parse` can produce. Parsing itself is not modelled: it is passed in as a partial function. */
module Json {

  datatype Json =
    | Null
    | Bool(b: bool)
    | Number(n: real)
    | Str(s: string)
    | Array(items: seq<Json>)
    | Object(fields: map<string, Json>)
}
