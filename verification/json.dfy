/** Values produced by decoding a JSON document, in the shapes Python's `json`
    module gives them: `None`, `bool`, `int`, `str`, `list` and `dict`. */
module Json {

  /** A decoded JSON value. Floating-point numbers are not represented. */
  datatype JValue =
    | JNull
    | JBool(b: bool)
    | JInt(i: int)
    | JStr(s: string)
    | JList(items: seq<JValue>)
    | JObj(fields: map<string, JValue>)
}
