/** JSON values as nlohmann::json holds them; an object is a map sorted by key. */
module Json {
  datatype Json =
    | Null
    | Boolean(b: bool)
    | Number(i: int)
    | String(s: string)
    | Array(a: seq<Json>)
    | Object(o: map<string, Json>)
  {
    /** `is_object() && contains(key)` */
    predicate Has(key: string) {
      Object? && key in o
    }
  }
}
