/** `GetMessage`: asks for every post addressed to `user`. */
module GetMsg {
  import opened Base
  import opened Json

  const TYPE := "GetMessage"

  datatype Get = Get(user: Option<string>)

  /** `toJSONType`: type "GetMessage" and user. */
  function Encode(m: Get): (j: JsonValue)
    ensures j.JObj? && j.fields.Keys == {"type", "user"}
    ensures HasType(j.fields, TYPE)
  {
    JObj(map["type" := JStr(TYPE), "user" := OptStr(m.user)])
  }

  /** `deserialize`, as the value it produces or the exception it throws. An absent
      field reads as null; a non-string one fails the cast. */
  function Decode(j: JsonValue): (r: Result<Get>)
    ensures !j.JObj? ==> r == Err(InvalidObject)
    ensures j.JObj? && !HasType(j.fields, TYPE) ==> r == Err(InvalidObject)
    ensures r.Ok? <==> j.JObj? && HasType(j.fields, TYPE)
                       && GetStr(j.fields, "user").Ok?
    ensures r.Ok? ==> Ok(r.value.user) == GetStr(j.fields, "user")
  {
    match CheckTyped(j, TYPE)
    case Err(f) => Err(f)
    case Ok(o) =>
      match GetStr(o, "user")
      case Ok(v0) => Ok(Get(v0))
      case Err(f) => Err(f)
  }

  /** Deserializing what `toJSONType` wrote recovers every field. */
  lemma RoundTrip(m: Get)
    ensures Decode(Encode(m)) == Ok(m)
  {
  }

  class GetMessage {
    var user: Option<string>

    constructor (user: Option<string>)
      ensures this.user == user
    {
      this.user := user;
    }

    /** The empty constructor used before `deserialize`. */
    constructor Empty()
      ensures user == None
    {
      user := None;
    }

    function Value(): Get
      reads this
    {
      Get(user)
    }

    /** `toJSONType`: what `deserialize` reads back as this message's fields. */
    function ToJsonType(): (j: JsonValue)
      reads this
      ensures Decode(j) == Ok(Value())
    {
      RoundTrip(Value());
      Encode(Value())
    }

    /** `deserialize`: both checks come before any assignment, so a rejected input
        leaves every field as it was; the fields are then cast and assigned in order. */
    method Deserialize(j: JsonValue) returns (thrown: Option<Fault>)
      modifies this
      ensures thrown.None? <==> Decode(j).Ok?
      ensures thrown.Some? ==> Decode(j) == Err(thrown.value)
      ensures thrown.None? ==> Value() == Decode(j).value
      ensures CheckTyped(j, TYPE).Err? ==> thrown == Some(InvalidObject) && Value() == old(Value())
    {
      var o := CheckTyped(j, TYPE);
      if o.Err? {
        return Some(o.fault);
      }
      var f0 := GetStr(o.value, "user");
      if f0.Err? {
        return Some(f0.fault);
      }
      user := f0.value;
      return None;
    }
  }
}
