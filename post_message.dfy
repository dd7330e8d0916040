/** `PostMessage`: a request to store a sealed post for the recipient `user`: the
    ciphertext (`message`), the wrapped one-time key and the iv, all Base64 text. */
module PostMsg {
  import opened Base
  import opened Json

  const TYPE := "Post"

  datatype Post = Post(user: Option<string>, message: Option<string>, wrappedkey: Option<string>, iv: Option<string>)

  /** `toJSONType`: type "Post" with user, message, wrappedkey and iv. */
  function Encode(m: Post): (j: JsonValue)
    ensures j.JObj? && j.fields.Keys == {"type", "user", "message", "wrappedkey", "iv"}
    ensures HasType(j.fields, TYPE)
  {
    JObj(map["type" := JStr(TYPE), "user" := OptStr(m.user), "message" := OptStr(m.message), "wrappedkey" := OptStr(m.wrappedkey), "iv" := OptStr(m.iv)])
  }

  /** `deserialize`, as the value it produces or the exception it throws. An absent
      field reads as null; a non-string one fails the cast. */
  function Decode(j: JsonValue): (r: Result<Post>)
    ensures !j.JObj? ==> r == Err(InvalidObject)
    ensures j.JObj? && !HasType(j.fields, TYPE) ==> r == Err(InvalidObject)
    ensures r.Ok? <==> j.JObj? && HasType(j.fields, TYPE)
                       && GetStr(j.fields, "user").Ok?
                       && GetStr(j.fields, "message").Ok?
                       && GetStr(j.fields, "wrappedkey").Ok?
                       && GetStr(j.fields, "iv").Ok?
    ensures r.Ok? ==> Ok(r.value.user) == GetStr(j.fields, "user")
                      && Ok(r.value.message) == GetStr(j.fields, "message")
                      && Ok(r.value.wrappedkey) == GetStr(j.fields, "wrappedkey")
                      && Ok(r.value.iv) == GetStr(j.fields, "iv")
  {
    match CheckTyped(j, TYPE)
    case Err(f) => Err(f)
    case Ok(o) =>
      match (GetStr(o, "user"), GetStr(o, "message"), GetStr(o, "wrappedkey"), GetStr(o, "iv"))
      case (Ok(v0), Ok(v1), Ok(v2), Ok(v3)) => Ok(Post(v0, v1, v2, v3))
      case _ => Err(ClassCast)
  }

  /** Deserializing what `toJSONType` wrote recovers every field. */
  lemma RoundTrip(m: Post)
    ensures Decode(Encode(m)) == Ok(m)
  {
  }

  class PostMessage {
    var user: Option<string>
    var message: Option<string>
    var wrappedkey: Option<string>
    var iv: Option<string>

    constructor (user: Option<string>, message: Option<string>, wrappedkey: Option<string>, iv: Option<string>)
      ensures this.user == user && this.message == message && this.wrappedkey == wrappedkey && this.iv == iv
    {
      this.user, this.message, this.wrappedkey, this.iv := user, message, wrappedkey, iv;
    }

    /** The empty constructor used before `deserialize`. */
    constructor Empty()
      ensures user == None && message == None && wrappedkey == None && iv == None
    {
      user, message, wrappedkey, iv := None, None, None, None;
    }

    function Value(): Post
      reads this
    {
      Post(user, message, wrappedkey, iv)
    }

    /** `toJSONType`: what `deserialize` reads back as this message's fields. */
    function ToJsonType(): (j: JsonValue)
      reads this
      ensures Decode(j) == Ok(Value())
    {
      RoundTrip(Value());
      Encode(Value())
    }

    /** `deserialize`: both checks come before any assignment, so a rejected input
        leaves every field as it was; the fields are then cast and assigned in order. */
    method Deserialize(j: JsonValue) returns (thrown: Option<Fault>)
      modifies this
      ensures thrown.None? <==> Decode(j).Ok?
      ensures thrown.Some? ==> Decode(j) == Err(thrown.value)
      ensures thrown.None? ==> Value() == Decode(j).value
      ensures CheckTyped(j, TYPE).Err? ==> thrown == Some(InvalidObject) && Value() == old(Value())
    {
      var o := CheckTyped(j, TYPE);
      if o.Err? {
        return Some(o.fault);
      }
      var f0 := GetStr(o.value, "user");
      if f0.Err? {
        return Some(f0.fault);
      }
      user := f0.value;
      var f1 := GetStr(o.value, "message");
      if f1.Err? {
        return Some(f1.fault);
      }
      message := f1.value;
      var f2 := GetStr(o.value, "wrappedkey");
      if f2.Err? {
        return Some(f2.fault);
      }
      wrappedkey := f2.value;
      var f3 := GetStr(o.value, "iv");
      if f3.Err? {
        return Some(f3.fault);
      }
      iv := f3.value;
      return None;
    }
  }
}
