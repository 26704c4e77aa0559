/** JSON values (RFC 8259) as a tree, the shape that org.json's JSONObject and
    JSONArray hold in memory. Objects are maps from member names to values:
    JSONObject looks members up by name, so member order plays no part in the
    model. Numbers are the integers; fractional numbers are not modelled. */
module Json {

  datatype Json =
    | JNull
    | JBool(b: bool)
    | JNum(n: int)
    | JString(s: string)
    | JArray(items: seq<Json>)
    | JObject(fields: map<string, Json>)

}
