/** `AuthenticateMessage`: a login request carrying username, password and one-time
    code. Its type tag is the lower-case "authenticate". */
module AuthenticateMsg {
  import opened Base
  import opened Json

  const TYPE := "authenticate"

  datatype Authenticate = Authenticate(user: Option<string>, pass: Option<string>, otp: Option<string>)

  /** `toJSONType`: type "authenticate" (lower case) with user, pass and otp. */
  function Encode(m: Authenticate): (j: JsonValue)
    ensures j.JObj? && j.fields.Keys == {"type", "user", "pass", "otp"}
    ensures HasType(j.fields, TYPE)
  {
    JObj(map["type" := JStr(TYPE), "user" := OptStr(m.user), "pass" := OptStr(m.pass), "otp" := OptStr(m.otp)])
  }

  /** `deserialize`, as the value it produces or the exception it throws. An absent
      field reads as null; a non-string one fails the cast. */
  function Decode(j: JsonValue): (r: Result<Authenticate>)
    ensures !j.JObj? ==> r == Err(InvalidObject)
    ensures j.JObj? && !HasType(j.fields, TYPE) ==> r == Err(InvalidObject)
    ensures r.Ok? <==> j.JObj? && HasType(j.fields, TYPE)
                       && GetStr(j.fields, "user").Ok?
                       && GetStr(j.fields, "pass").Ok?
                       && GetStr(j.fields, "otp").Ok?
    ensures r.Ok? ==> Ok(r.value.user) == GetStr(j.fields, "user")
                      && Ok(r.value.pass) == GetStr(j.fields, "pass")
                      && Ok(r.value.otp) == GetStr(j.fields, "otp")
  {
    match CheckTyped(j, TYPE)
    case Err(f) => Err(f)
    case Ok(o) =>
      match (GetStr(o, "user"), GetStr(o, "pass"), GetStr(o, "otp"))
      case (Ok(v0), Ok(v1), Ok(v2)) => Ok(Authenticate(v0, v1, v2))
      case _ => Err(ClassCast)
  }

  /** Deserializing what `toJSONType` wrote recovers every field. */
  lemma RoundTrip(m: Authenticate)
    ensures Decode(Encode(m)) == Ok(m)
  {
  }

  /** Any other tag is refused, the capitalised "Authenticate" included. */
  lemma RejectsCapitalisedTag(o: Object)
    requires HasType(o, "Authenticate")
    ensures Decode(JObj(o)) == Err(InvalidObject)
  {
  }

  class AuthenticateMessage {
    var user: Option<string>
    var pass: Option<string>
    var otp: Option<string>

    constructor (user: Option<string>, pass: Option<string>, otp: Option<string>)
      ensures this.user == user && this.pass == pass && this.otp == otp
    {
      this.user, this.pass, this.otp := user, pass, otp;
    }

    /** The empty constructor used before `deserialize`. */
    constructor Empty()
      ensures user == None && pass == None && otp == None
    {
      user, pass, otp := None, None, None;
    }

    function Value(): Authenticate
      reads this
    {
      Authenticate(user, pass, otp)
    }

    /** `toJSONType`: what `deserialize` reads back as this message's fields. */
    function ToJsonType(): (j: JsonValue)
      reads this
      ensures Decode(j) == Ok(Value())
    {
      RoundTrip(Value());
      Encode(Value())
    }

    /** `deserialize`: both checks come before any assignment, so a rejected input
        leaves every field as it was; the fields are then cast and assigned in order. */
    method Deserialize(j: JsonValue) returns (thrown: Option<Fault>)
      modifies this
      ensures thrown.None? <==> Decode(j).Ok?
      ensures thrown.Some? ==> Decode(j) == Err(thrown.value)
      ensures thrown.None? ==> Value() == Decode(j).value
      ensures CheckTyped(j, TYPE).Err? ==> thrown == Some(InvalidObject) && Value() == old(Value())
    {
      var o := CheckTyped(j, TYPE);
      if o.Err? {
        return Some(o.fault);
      }
      var f0 := GetStr(o.value, "user");
      if f0.Err? {
        return Some(f0.fault);
      }
      user := f0.value;
      var f1 := GetStr(o.value, "pass");
      if f1.Err? {
        return Some(f1.fault);
      }
      pass := f1.value;
      var f2 := GetStr(o.value, "otp");
      if f2.Err? {
        return Some(f2.fault);
      }
      otp := f2.value;
      return None;
    }
  }
}
