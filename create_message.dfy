/** `CreateMessage`: a request to open an account, carrying the username, the
    plaintext password and the Base64 public key, under the type tag "Create". */
module CreateMsg {
  import opened Base
  import opened Json

  const TYPE := "Create"

  datatype Create = Create(user: Option<string>, pass: Option<string>, pubkey: Option<string>)

  /** `toJSONType`: exactly the keys type, user, pass and pubkey. */
  function Encode(m: Create): (j: JsonValue)
    ensures j.JObj? && j.fields.Keys == {"type", "user", "pass", "pubkey"}
    ensures HasType(j.fields, TYPE)
  {
    JObj(map["type" := JStr(TYPE), "user" := OptStr(m.user), "pass" := OptStr(m.pass), "pubkey" := OptStr(m.pubkey)])
  }

  /** `deserialize`, as the value it produces or the exception it throws. An absent
      field reads as null; a non-string one fails the cast. */
  function Decode(j: JsonValue): (r: Result<Create>)
    ensures !j.JObj? ==> r == Err(InvalidObject)
    ensures j.JObj? && !HasType(j.fields, TYPE) ==> r == Err(InvalidObject)
    ensures r.Ok? <==> j.JObj? && HasType(j.fields, TYPE)
                       && GetStr(j.fields, "user").Ok?
                       && GetStr(j.fields, "pass").Ok?
                       && GetStr(j.fields, "pubkey").Ok?
    ensures r.Ok? ==> Ok(r.value.user) == GetStr(j.fields, "user")
                      && Ok(r.value.pass) == GetStr(j.fields, "pass")
                      && Ok(r.value.pubkey) == GetStr(j.fields, "pubkey")
  {
    match CheckTyped(j, TYPE)
    case Err(f) => Err(f)
    case Ok(o) =>
      match (GetStr(o, "user"), GetStr(o, "pass"), GetStr(o, "pubkey"))
      case (Ok(v0), Ok(v1), Ok(v2)) => Ok(Create(v0, v1, v2))
      case _ => Err(ClassCast)
  }

  /** Deserializing what `toJSONType` wrote recovers every field. */
  lemma RoundTrip(m: Create)
    ensures Decode(Encode(m)) == Ok(m)
  {
  }

  class CreateMessage {
    var user: Option<string>
    var pass: Option<string>
    var pubkey: Option<string>

    constructor (user: Option<string>, pass: Option<string>, pubkey: Option<string>)
      ensures this.user == user && this.pass == pass && this.pubkey == pubkey
    {
      this.user, this.pass, this.pubkey := user, pass, pubkey;
    }

    /** The empty constructor used before `deserialize`. */
    constructor Empty()
      ensures user == None && pass == None && pubkey == None
    {
      user, pass, pubkey := None, None, None;
    }

    function Value(): Create
      reads this
    {
      Create(user, pass, pubkey)
    }

    /** `toJSONType`: what `deserialize` reads back as this message's fields. */
    function ToJsonType(): (j: JsonValue)
      reads this
      ensures Decode(j) == Ok(Value())
    {
      RoundTrip(Value());
      Encode(Value())
    }

    /** `deserialize`: both checks come before any assignment, so a rejected input
        leaves every field as it was; the fields are then cast and assigned in order. */
    method Deserialize(j: JsonValue) returns (thrown: Option<Fault>)
      modifies this
      ensures thrown.None? <==> Decode(j).Ok?
      ensures thrown.Some? ==> Decode(j) == Err(thrown.value)
      ensures thrown.None? ==> Value() == Decode(j).value
      ensures CheckTyped(j, TYPE).Err? ==> thrown == Some(InvalidObject) && Value() == old(Value())
    {
      var o := CheckTyped(j, TYPE);
      if o.Err? {
        return Some(o.fault);
      }
      var f0 := GetStr(o.value, "user");
      if f0.Err? {
        return Some(f0.fault);
      }
      user := f0.value;
      var f1 := GetStr(o.value, "pass");
      if f1.Err? {
        return Some(f1.fault);
      }
      pass := f1.value;
      var f2 := GetStr(o.value, "pubkey");
      if f2.Err? {
        return Some(f2.fault);
      }
      pubkey := f2.value;
      return None;
    }
  }
}
