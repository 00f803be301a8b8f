/** The values a JSON document (and a Python object decoded from one) can hold. */
module JsonValues {

  /** A decoded JSON value. Numbers are integral; see README for what that leaves out. */
  datatype Json =
    | Null
    | Bool(b: bool)
    | Number(n: int)
    | Str(s: string)
    | Array(items: seq<Json>)
    | Object(fields: map<string, Json>)

  /** Python can use the decoded value as a `dict` key (or in a `set`): `None`,
      booleans, integers and strings hash; lists and dicts raise `TypeError`. */
  predicate Hashable(j: Json) {
    !j.Array? && !j.Object?
  }
}
