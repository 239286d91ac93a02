/** The scalar values stored in a listing's metadata and the JSON values a parser may return. */
module Values {

  import opened Wrappers

  /** A metadata scalar: the vector store keeps floats and strings only. */
  datatype Value = Num(n: real) | Str(s: string)

  /** A decoded JSON document (numbers are exact reals; objects are maps). */
  datatype Json =
    | JNull
    | JBool(b: bool)
    | JNum(n: real)
    | JStr(s: string)
    | JArr(items: seq<Json>)
    | JObj(fields: map<string, Json>)

  /** Python's dict.get(k) on a metadata map. */
  function Get(m: map<string, Value>, k: string): Option<Value> {
    if k in m then Some(m[k]) else None
  }

  /** Python truthiness of an optional scalar: None, 0 and '' are false. */
  predicate Truthy(v: Option<Value>) {
    match v
    case None => false
    case Some(Num(x)) => x != 0.0
    case Some(Str(s)) => s != ""
  }
}
