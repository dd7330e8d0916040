/** `StatusMessage`: the server's generic reply, a success flag and a text payload,
    under the type tag "Status". */
module StatusMsg {
  import opened Base
  import opened Json

  const TYPE := "Status"

  datatype Status = Status(status: bool, payload: Option<string>)

  /** `(Boolean) obj.get(k)` stored into a primitive `boolean`: a missing key or a JSON
      null fails the unboxing, a non-boolean fails the cast. */
  function GetBool(o: Object, k: string): (r: Result<bool>)
    ensures r.Ok? <==> k in o && o[k].JBool?
    ensures r.Ok? ==> r.value == o[k].b
    ensures (k !in o || o[k] == JNull) ==> r == Err(NullPointer)
  {
    if k !in o then Err(NullPointer)
    else match o[k]
      case JNull => Err(NullPointer)
      case JBool(b) => Ok(b)
      case _ => Err(ClassCast)
  }

  /** `toJSONType`: exactly the keys type, status and payload. */
  function Encode(m: Status): (j: JsonValue)
    ensures j.JObj? && j.fields.Keys == {"type", "status", "payload"}
    ensures HasType(j.fields, TYPE) && j.fields["status"] == JBool(m.status)
  {
    JObj(map["type" := JStr(TYPE), "status" := JBool(m.status), "payload" := OptStr(m.payload)])
  }

  /** `deserialize` as a value: the status must be a present boolean, the payload a
      string or null. */
  function Decode(j: JsonValue): (r: Result<Status>)
    ensures !j.JObj? ==> r == Err(InvalidObject)
    ensures j.JObj? && !HasType(j.fields, TYPE) ==> r == Err(InvalidObject)
    ensures r.Ok? <==> j.JObj? && HasType(j.fields, TYPE)
                       && GetBool(j.fields, "status").Ok? && GetStr(j.fields, "payload").Ok?
    ensures r.Ok? ==> j.fields["status"] == JBool(r.value.status)
                      && GetStr(j.fields, "payload") == Ok(r.value.payload)
    ensures j.JObj? && HasType(j.fields, TYPE) && "status" !in j.fields ==> r == Err(NullPointer)
  {
    match CheckTyped(j, TYPE)
    case Err(f) => Err(f)
    case Ok(o) =>
      match GetBool(o, "status")
      case Err(f) => Err(f)
      case Ok(s) =>
        match GetStr(o, "payload")
        case Err(f) => Err(f)
        case Ok(p) => Ok(Status(s, p))
  }

  /** Deserializing what `toJSONType` wrote recovers the flag and the payload. */
  lemma RoundTrip(m: Status)
    ensures Decode(Encode(m)) == Ok(m)
  {
  }

  class StatusMessage {
    var status: bool
    var payload: Option<string>

    constructor (status: bool, payload: Option<string>)
      ensures this.status == status && this.payload == payload
    {
      this.status, this.payload := status, payload;
    }

    /** The empty constructor used before `deserialize`: Java's defaults. */
    constructor Empty()
      ensures status == false && payload == None
    {
      status, payload := false, None;
    }

    function Value(): Status
      reads this
    {
      Status(status, payload)
    }

    /** `toJSONType`: what `deserialize` reads back as this message's fields. */
    function ToJsonType(): (j: JsonValue)
      reads this
      ensures Decode(j) == Ok(Value())
    {
      RoundTrip(Value());
      Encode(Value())
    }

    /** `deserialize`: the object and type checks leave both fields as they were; the
        status is assigned before the payload is cast, so a bad payload leaves the new
        status in place. */
    method Deserialize(j: JsonValue) returns (thrown: Option<Fault>)
      modifies this
      ensures thrown.None? <==> Decode(j).Ok?
      ensures thrown.Some? ==> Decode(j) == Err(thrown.value)
      ensures thrown.None? ==> Value() == Decode(j).value
      ensures CheckTyped(j, TYPE).Err? ==> thrown == Some(InvalidObject) && Value() == old(Value())
      ensures CheckTyped(j, TYPE).Ok? && GetBool(j.fields, "status").Err? ==>
                thrown == Some(GetBool(j.fields, "status").fault) && Value() == old(Value())
      ensures CheckTyped(j, TYPE).Ok? && GetBool(j.fields, "status").Ok? ==>
                status == GetBool(j.fields, "status").value
    {
      var o := CheckTyped(j, TYPE);
      if o.Err? {
        return Some(o.fault);
      }
      var s := GetBool(o.value, "status");
      if s.Err? {
        return Some(s.fault);
      }
      status := s.value;
      var p := GetStr(o.value, "payload");
      if p.Err? {
        return Some(p.fault);
      }
      payload := p.value;
      return None;
    }
  }
}
