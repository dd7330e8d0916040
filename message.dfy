/** `Message`: the abstract base of the request classes in `Post.java`; it holds only
    the type tag and writes it out as a one-key JSON object. */
module BaseMessage {
  import opened Base
  import opened Json

  class Message {
    const msgType: Option<string>

    constructor (msgType: Option<string>)
      ensures this.msgType == msgType
    {
      this.msgType := msgType;
    }

    /** `getType`: the tag given at construction. */
    function GetType(): (t: Option<string>)
      ensures t == msgType
    {
      msgType
    }

    /** `toJSONObject`: an object whose only key is "type". */
    function ToJsonObject(): (o: Object)
      ensures o.Keys == {"type"}
      ensures GetStr(o, "type") == Ok(GetType())
      ensures msgType.Some? ==> HasType(o, msgType.value)
    {
      map["type" := OptStr(msgType)]
    }
  }
}
