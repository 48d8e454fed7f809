/**
 * JSON values as the server receives them from a parsed request body or
 * from the `deck` column of the decks table. Numbers are integers here:
 * the only number the core reads is a deck's `version`.
 */
module Json {

  datatype Value =
    | JNull
    | JBool(b: bool)
    | JNum(n: int)
    | JStr(s: string)
    | JArr(items: seq<Value>)
    | JObj(fields: map<string, Value>)
}
