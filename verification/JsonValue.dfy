/** Parsed JSON documents. */
module JsonValue {
  datatype Json =
    | Null
    | Bool(value: bool)
    | Number(number: int)
    | Text(text: string)
    | Array(items: seq<Json>)
    | Object(fields: map<string, Json>)

  /** `item.get(key) == value` on something that may not be an object. */
  predicate Has(j: Json, key: string, value: Json) {
    j.Object? && key in j.fields && j.fields[key] == value
  }
}
