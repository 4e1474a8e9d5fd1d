/** Parsed JSON, as `json.loads` returns it. */
module Json {
  import opened Dicts

  datatype Json =
    | JNull
    | JBool(b: bool)
    | JInt(n: int)
    | JFloat(text: string)
    | JStr(s: string)
    | JList(items: seq<Json>)
    | JObject(fields: Dict<string, Json>)
}
