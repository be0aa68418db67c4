/** The JSON-compatible values that a record's `model_dump(mode='json')` yields. */
module JsonValues {

  /** Only the shapes a dumped record contains: strings, integers, lists and
      dictionaries whose keys keep their insertion order. */
  datatype Json =
    | JString(str: string)
    | JInt(num: int)
    | JArray(items: seq<Json>)
    | JObject(members: seq<(string, Json)>)
}
