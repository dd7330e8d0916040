/** `PostObject`: one sealed post as the server stores it and returns it. It is not a
    request, so its JSON form carries no "type" key. */
module PostObjectMsg {
  import opened Base
  import opened Json

  /** A sealed post: recipient, ciphertext, wrapped one-time key and iv (Base64 text,
      opaque to the server). */
  datatype SealedPost = SealedPost(user: Option<string>, message: Option<string>,
                                   wrappedkey: Option<string>, iv: Option<string>)

  /** `toJSONType`: exactly user, message, wrappedkey and iv; no "type". */
  function Encode(p: SealedPost): (j: JsonValue)
    ensures j.JObj? && j.fields.Keys == {"user", "message", "wrappedkey", "iv"}
    ensures "type" !in j.fields
  {
    JObj(map["user" := OptStr(p.user), "message" := OptStr(p.message),
             "wrappedkey" := OptStr(p.wrappedkey), "iv" := OptStr(p.iv)])
  }

  /** `deserialize` as a value: any JSON object is accepted whatever its "type"; a
      non-object is refused. */
  function Decode(j: JsonValue): (r: Result<SealedPost>)
    ensures !j.JObj? ==> r == Err(InvalidObject)
    ensures r.Ok? <==> j.JObj? && GetStr(j.fields, "user").Ok? && GetStr(j.fields, "message").Ok?
                       && GetStr(j.fields, "wrappedkey").Ok? && GetStr(j.fields, "iv").Ok?
    ensures r.Ok? ==> Ok(r.value.user) == GetStr(j.fields, "user")
                      && Ok(r.value.message) == GetStr(j.fields, "message")
                      && Ok(r.value.wrappedkey) == GetStr(j.fields, "wrappedkey")
                      && Ok(r.value.iv) == GetStr(j.fields, "iv")
  {
    if !j.JObj? then Err(InvalidObject)
    else
      var o := j.fields;
      match (GetStr(o, "user"), GetStr(o, "message"), GetStr(o, "wrappedkey"), GetStr(o, "iv"))
      case (Ok(u), Ok(m), Ok(w), Ok(v)) => Ok(SealedPost(u, m, w, v))
      case _ => Err(ClassCast)
  }

  /** Deserializing what `toJSONType` wrote recovers all four fields. */
  lemma RoundTrip(p: SealedPost)
    ensures Decode(Encode(p)) == Ok(p)
  {
  }

  /** A "type" entry, whatever its value, does not change what is read. */
  lemma TypeKeyIgnored(o: Object, t: JsonValue)
    requires "type" !in o
    ensures Decode(JObj(o["type" := t])) == Decode(JObj(o))
  {
    var o' := o["type" := t];
    assert forall k | k != "type" :: GetStr(o', k) == GetStr(o, k);
  }

  class PostObject {
    var user: Option<string>
    var message: Option<string>
    var wrappedkey: Option<string>
    var iv: Option<string>

    constructor (user: Option<string>, message: Option<string>, wrappedkey: Option<string>,
                 iv: Option<string>)
      ensures this.user == user && this.message == message
      ensures this.wrappedkey == wrappedkey && this.iv == iv
    {
      this.user, this.message, this.wrappedkey, this.iv := user, message, wrappedkey, iv;
    }

    /** The default constructor used before `deserialize`. */
    constructor Empty()
      ensures user == None && message == None && wrappedkey == None && iv == None
    {
      user, message, wrappedkey, iv := None, None, None, None;
    }

    function Value(): SealedPost
      reads this
    {
      SealedPost(user, message, wrappedkey, iv)
    }

    /** `toJSONType`: what `deserialize` reads back as this message's fields. */
    function ToJsonType(): (j: JsonValue)
      reads this
      ensures Decode(j) == Ok(Value())
    {
      RoundTrip(Value());
      Encode(Value())
    }

    /** `deserialize`: a non-object is refused before any field is touched; the fields
        are then cast and assigned in order. */
    method Deserialize(j: JsonValue) returns (thrown: Option<Fault>)
      modifies this
      ensures thrown.None? <==> Decode(j).Ok?
      ensures thrown.Some? ==> Decode(j) == Err(thrown.value)
      ensures thrown.None? ==> Value() == Decode(j).value
      ensures !j.JObj? ==> thrown == Some(InvalidObject) && Value() == old(Value())
    {
      if !j.JObj? {
        return Some(InvalidObject);
      }
      var o := j.fields;
      var u := GetStr(o, "user");
      if u.Err? {
        return Some(u.fault);
      }
      user := u.value;
      var m := GetStr(o, "message");
      if m.Err? {
        return Some(m.fault);
      }
      message := m.value;
      var w := GetStr(o, "wrappedkey");
      if w.Err? {
        return Some(w.fault);
      }
      wrappedkey := w.value;
      var v := GetStr(o, "iv");
      if v.Err? {
        return Some(v.fault);
      }
      iv := v.value;
      return None;
    }
  }
}
