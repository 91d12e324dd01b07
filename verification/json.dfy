/** JSON values as the request bodies and the pickled `recipe` column carry them. */
module Json {

  /** Numbers are integers here; objects are keyed by member name. */
  datatype Json =
    | JNull
    | JBool(b: bool)
    | JNum(n: int)
    | JStr(s: string)
    | JArr(items: seq<Json>)
    | JObj(fields: map<string, Json>)
}
