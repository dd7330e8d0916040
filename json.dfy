/** The JSON object level at which every wire message and stored record is read and
    written. Parsing and printing JSON text belong to an external library and are not
    part of this model: a message arrives here already as a `JsonValue`. */
module Json {
  import opened Base

  datatype JsonValue =
    | JNull
    | JBool(b: bool)
    | JNum(n: int)
    | JStr(s: string)
    | JArr(items: seq<JsonValue>)
    | JObj(fields: map<string, JsonValue>)

  /** A JSON object: key to value. A key put with a null Java value maps to `JNull`. */
  type Object = map<string, JsonValue>

  /** The value `obj.put(k, s)` stores for a Java String `s` that may be null. */
  function OptStr(s: Option<string>): JsonValue {
    if s.Some? then JStr(s.value) else JNull
  }

  /** `(String) obj.get(k)`: an absent key or a JSON null reads as null, a string as
      itself, and any other value fails the cast. */
  function GetStr(o: Object, k: string): Result<Option<string>> {
    if k !in o then Ok(None)
    else match o[k]
      case JNull => Ok(None)
      case JStr(s) => Ok(Some(s))
      case _ => Err(ClassCast)
  }

  /** Reading back a string field that was just put gives the value put. */
  lemma GetStrOfPut(o: Object, k: string, s: Option<string>)
    ensures GetStr(o[k := OptStr(s)], k) == Ok(s)
  {
  }

  /** `type != null && TYPE.equals(type)`: the "type" entry is exactly the string `tag`. */
  predicate HasType(o: Object, tag: string) {
    "type" in o && o["type"] == JStr(tag)
  }

  /** The two checks every typed `deserialize` makes before it assigns any field:
      the input is a JSON object, and its "type" is exactly `tag`; either failure
      throws InvalidObjectException. */
  function CheckTyped(j: JsonValue, tag: string): Result<Object> {
    if !j.JObj? then Err(InvalidObject)
    else if !HasType(j.fields, tag) then Err(InvalidObject)
    else Ok(j.fields)
  }
}
