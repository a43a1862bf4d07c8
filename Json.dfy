/** JSON values as the scripts see them after `json.load`, the few dictionary
    operations they use, and the errors those operations raise. */
module Json {

  /** A decoded JSON document. Numbers are kept as integers: the model never
      computes with them, it only carries them from a record into a payload. */
  datatype Json =
    | JNull
    | JBool(b: bool)
    | JNum(n: int)
    | JStr(s: string)
    | JArr(items: seq<Json>)
    | JObj(fields: map<string, Json>)

  /** Python truthiness (`if not v`): None, False, 0 and empty containers are false. */
  predicate Truthy(v: Json) {
    match v
    case JNull => false
    case JBool(b) => b
    case JNum(n) => n != 0
    case JStr(s) => s != ""
    case JArr(items) => items != []
    case JObj(fields) => fields != map[]
  }

  /** `d.get(key, default)` on a dictionary. */
  function Get(d: map<string, Json>, key: string, default: Json): Json {
    if key in d then d[key] else default
  }

  /** The exceptions the modelled code can raise. */
  datatype Error =
    | KeyError(key: string)            // `d[key]` on a missing key
    | AttributeError(name: string)     // a method looked up on a value that lacks it
    | NotIterable                      // `for x in v` on a number, boolean or None
    | EncodeError                      // the embedder was given something that is not a string
    | ValueError(message: string)      // raised explicitly by the scripts
}
