/** Loosely-typed payload values as JavaScript sees them, and the
    truthiness that the `||` fallbacks in the queries rely on. */
module Json {

  datatype Option<+T> = None | Some(value: T)

  /** A structured value from a record payload (numbers are integers here). */
  datatype Json =
    | JNull
    | JBool(b: bool)
    | JNum(n: int)
    | JStr(s: string)
    | JArr(items: seq<Json>)
    | JObj(fields: map<string, Json>)

  /** JavaScript truthiness of a present value: null, false, 0 and "" are falsy,
      every array and object is truthy. */
  predicate Truthy(v: Json) {
    match v
    case JNull => false
    case JBool(b) => b
    case JNum(n) => n != 0
    case JStr(s) => s != ""
    case JArr(_) => true
    case JObj(_) => true
  }

  /** `field || fallback` on an optional payload field (absent is undefined, hence falsy). */
  function Or(field: Option<Json>, fallback: Json): (r: Json)
    ensures field.Some? && Truthy(field.value) ==> r == field.value
    ensures !(field.Some? && Truthy(field.value)) ==> r == fallback
  {
    if field.Some? && Truthy(field.value) then field.value else fallback
  }

  /** A string field is truthy when present and non-empty. */
  predicate StrTruthy(field: Option<string>) {
    field.Some? && field.value != ""
  }

  /** `field || fallback` on an optional string field. */
  function OrStr(field: Option<string>, fallback: string): (r: string)
    ensures StrTruthy(field) ==> r == field.value
    ensures !StrTruthy(field) ==> r == fallback
  {
    if StrTruthy(field) then field.value else fallback
  }

  /** `field || fallback` on an optional numeric field: absent and 0 are falsy. */
  function OrInt(field: Option<int>, fallback: int): (r: int)
    ensures field.Some? && field.value != 0 ==> r == field.value
    ensures field.None? || field.value == 0 ==> r == fallback
  {
    if field.Some? && field.value != 0 then field.value else fallback
  }

  /** `field ?? fallback` on an optional flag. */
  function OrDefault(field: Option<bool>, fallback: bool): (r: bool)
    ensures field.Some? ==> r == field.value
    ensures field.None? ==> r == fallback
  {
    if field.Some? then field.value else fallback
  }
}
