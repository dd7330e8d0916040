/** `PubKeyRequestMessage` (the stand-alone class): asks for the public key of `user`. */
module PubKeyRequestMsg {
  import opened Base
  import opened Json

  const TYPE := "PubKeyRequest"

  datatype PubKeyRequest = PubKeyRequest(user: Option<string>)

  /** `toJSONType`: type "PubKeyRequest" and user. */
  function Encode(m: PubKeyRequest): (j: JsonValue)
    ensures j.JObj? && j.fields.Keys == {"type", "user"}
    ensures HasType(j.fields, TYPE)
  {
    JObj(map["type" := JStr(TYPE), "user" := OptStr(m.user)])
  }

  /** `deserialize`, as the value it produces or the exception it throws. An absent
      field reads as null; a non-string one fails the cast. */
  function Decode(j: JsonValue): (r: Result<PubKeyRequest>)
    ensures !j.JObj? ==> r == Err(InvalidObject)
    ensures j.JObj? && !HasType(j.fields, TYPE) ==> r == Err(InvalidObject)
    ensures r.Ok? <==> j.JObj? && HasType(j.fields, TYPE)
                       && GetStr(j.fields, "user").Ok?
    ensures r.Ok? ==> Ok(r.value.user) == GetStr(j.fields, "user")
  {
    match CheckTyped(j, TYPE)
    case Err(f) => Err(f)
    case Ok(o) =>
      match GetStr(o, "user")
      case Ok(v0) => Ok(PubKeyRequest(v0))
      case Err(f) => Err(f)
  }

  /** Deserializing what `toJSONType` wrote recovers every field. */
  lemma RoundTrip(m: PubKeyRequest)
    ensures Decode(Encode(m)) == Ok(m)
  {
  }

  class PubKeyRequestMessage {
    var user: Option<string>

    constructor (user: Option<string>)
      ensures this.user == user
    {
      this.user := user;
    }

    /** The empty constructor used before `deserialize`. */
    constructor Empty()
      ensures user == None
    {
      user := None;
    }

    function Value(): PubKeyRequest
      reads this
    {
      PubKeyRequest(user)
    }

    /** `toJSONType`: what `deserialize` reads back as this message's fields. */
    function ToJsonType(): (j: JsonValue)
      reads this
      ensures Decode(j) == Ok(Value())
    {
      RoundTrip(Value());
      Encode(Value())
    }

    /** `deserialize`: both checks come before any assignment, so a rejected input
        leaves every field as it was; the fields are then cast and assigned in order. */
    method Deserialize(j: JsonValue) returns (thrown: Option<Fault>)
      modifies this
      ensures thrown.None? <==> Decode(j).Ok?
      ensures thrown.Some? ==> Decode(j) == Err(thrown.value)
      ensures thrown.None? ==> Value() == Decode(j).value
      ensures CheckTyped(j, TYPE).Err? ==> thrown == Some(InvalidObject) && Value() == old(Value())
    {
      var o := CheckTyped(j, TYPE);
      if o.Err? {
        return Some(o.fault);
      }
      var f0 := GetStr(o.value, "user");
      if f0.Err? {
        return Some(f0.fault);
      }
      user := f0.value;
      return None;
    }
  }
}
