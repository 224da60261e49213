/** Decoded JSON. An object is a map, so no key occurs twice. */
module Json {
  import opened GoStrings

  datatype Json =
    | JNull
    | JBool(flag: bool)
    | JNumber(number: real)
    | JString(text: string)
    | JArray(items: seq<Json>)
    | JObject(fields: map<string, Json>)

  /** The member named `key`; an absent member reads as null. */
  function Member(fields: map<string, Json>, key: string): Json {
    if key in fields then fields[key] else JNull
  }
}
