/**
 * A JSON document as `response.json()` returns it. Numbers are integers;
 * an object is a map from keys to values.
 */
module Json {
  datatype Json =
    | JNull
    | JBool(b: bool)
    | JNum(n: int)
    | JStr(s: string)
    | JArr(items: seq<Json>)
    | JObj(fields: map<string, Json>)
}
