/** JSON values as Python's json module reads them: an integer is not a float, and a later duplicate
    key has already won. */
module Json {
  datatype Json =
    | JNull
    | JBool(b: bool)
    | JInt(n: int)
    | JReal(x: real)
    | JStr(s: string)
    | JArr(items: seq<Json>)
    | JObj(fields: map<string, Json>)
}
