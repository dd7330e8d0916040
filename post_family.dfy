/** The request classes of `Post.java`, built on the `Message` base: `Post` (tag
    "post"), the file-local `PubKeyRequestMessage` and `GetMessageRequest`, and
    `GetResponseMessage`, which holds its posts in a Java array. None of their
    `deserialize` methods checks the type tag, and a non-object is ignored silently. */
module PostFamily {
  import opened Base
  import opened Json
  import PostObjectMsg
  import PubKeyRequestMsg
  import GetMsg
  import ResponseMsg

  type SealedPost = PostObjectMsg.SealedPost

  const POST_TYPE := "post"
  const PUB_KEY_REQUEST_TYPE := "PubKeyRequest"
  const GET_MESSAGE_TYPE := "GetMessage"
  const GET_RESPONSE_TYPE := "GetResponseMessage"

  // ---------------------------------------------------------------- Post

  /** `Post.toJSONObject`: the base object with the four post fields added. */
  function EncodePost(p: SealedPost): (o: Object)
    ensures o.Keys == {"type", "user", "message", "wrappedkey", "iv"}
    ensures HasType(o, POST_TYPE)
  {
    map["type" := JStr(POST_TYPE), "user" := OptStr(p.user), "message" := OptStr(p.message),
        "wrappedkey" := OptStr(p.wrappedkey), "iv" := OptStr(p.iv)]
  }

  /** `new Post(JSONObject)`: the four casts, with no look at the type tag. */
  function PostFromObject(o: Object): (r: Result<SealedPost>)
    ensures r.Ok? <==> GetStr(o, "user").Ok? && GetStr(o, "message").Ok?
                       && GetStr(o, "wrappedkey").Ok? && GetStr(o, "iv").Ok?
    ensures r.Ok? ==> Ok(r.value.user) == GetStr(o, "user")
                      && Ok(r.value.message) == GetStr(o, "message")
                      && Ok(r.value.wrappedkey) == GetStr(o, "wrappedkey")
                      && Ok(r.value.iv) == GetStr(o, "iv")
    ensures r.Err? ==> r.fault == ClassCast
  {
    match (GetStr(o, "user"), GetStr(o, "message"), GetStr(o, "wrappedkey"), GetStr(o, "iv"))
    case (Ok(u), Ok(m), Ok(w), Ok(v)) => Ok(PostObjectMsg.SealedPost(u, m, w, v))
    case _ => Err(ClassCast)
  }

  /** Reading back what `toJSONObject` wrote recovers the post. */
  lemma PostRoundTrip(p: SealedPost)
    ensures PostFromObject(EncodePost(p)) == Ok(p)
  {
  }

  /** A `Post` read from any JSON object is what the server's `PostObject` reads from it:
      both ignore "type", so the two formats carry a post interchangeably. */
  lemma PostReadsLikePostObject(o: Object)
    ensures PostFromObject(o) == PostObjectMsg.Decode(JObj(o))
  {
  }

  class Post {
    const msgType: string
    var user: Option<string>
    var message: Option<string>
    var wrappedkey: Option<string>
    var iv: Option<string>

    constructor (user: Option<string>, message: Option<string>, wrappedkey: Option<string>,
                 iv: Option<string>)
      ensures msgType == POST_TYPE
      ensures this.user == user && this.message == message
      ensures this.wrappedkey == wrappedkey && this.iv == iv
    {
      msgType := POST_TYPE;
      this.user, this.message, this.wrappedkey, this.iv := user, message, wrappedkey, iv;
    }

    function Value(): SealedPost
      reads this
    {
      PostObjectMsg.SealedPost(user, message, wrappedkey, iv)
    }

    /** `toJSONObject`: the base object's tag with the four fields added; reading it
        back gives this post's fields. */
    function ToJsonObject(): (o: Object)
      reads this
      requires msgType == POST_TYPE
      ensures HasType(o, msgType)
      ensures PostFromObject(o) == Ok(Value())
    {
      PostRoundTrip(Value());
      EncodePost(Value())
    }

    /** `deserialize`: a non-object changes nothing and throws nothing; an object has
        its four fields cast and assigned in order, whatever its "type". */
    method Deserialize(j: JsonValue) returns (thrown: Option<Fault>)
      modifies this
      ensures !j.JObj? ==> thrown == None && Value() == old(Value())
      ensures j.JObj? ==> (thrown.None? <==> PostFromObject(j.fields).Ok?)
      ensures j.JObj? && thrown.None? ==> Value() == PostFromObject(j.fields).value
      ensures thrown.Some? ==> thrown == Some(ClassCast)
    {
      if j.JObj? {
        var o := j.fields;
        var u := GetStr(o, "user");
        if u.Err? {
          return Some(u.fault);
        }
        user := u.value;
        var m := GetStr(o, "message");
        if m.Err? {
          return Some(m.fault);
        }
        message := m.value;
        var w := GetStr(o, "wrappedkey");
        if w.Err? {
          return Some(w.fault);
        }
        wrappedkey := w.value;
        var v := GetStr(o, "iv");
        if v.Err? {
          return Some(v.fault);
        }
        iv := v.value;
      }
      return None;
    }
  }

  /** `new Post(JSONObject)` as a static factory: the object is built only when every
      cast succeeds. */
  method NewPostFromObject(o: Object) returns (r: Result<Post>)
    ensures r.Ok? <==> PostFromObject(o).Ok?
    ensures r.Ok? ==> fresh(r.value) && r.value.msgType == POST_TYPE
                      && r.value.Value() == PostFromObject(o).value
    ensures r.Err? ==> r.fault == PostFromObject(o).fault
  {
    var p := PostFromObject(o);
    if p.Err? {
      return Err(p.fault);
    }
    var post := new Post(p.value.user, p.value.message, p.value.wrappedkey, p.value.iv);
    return Ok(post);
  }

  // ------------------------------------------- the two single-user requests

  /** `toJSONObject` of a request that carries only a user. */
  function UserRequestObject(tag: string, user: Option<string>): (o: Object)
    ensures o.Keys == {"type", "user"} && HasType(o, tag)
    ensures GetStr(o, "user") == Ok(user)
  {
    map["type" := JStr(tag), "user" := OptStr(user)]
  }

  /** The file-local `PubKeyRequestMessage` writes exactly what the public one in
      `PubKeyRequestMessage.java` writes, so the server accepts it. */
  lemma PubKeyRequestWireCompatible(user: Option<string>)
    ensures JObj(UserRequestObject(PUB_KEY_REQUEST_TYPE, user))
            == PubKeyRequestMsg.Encode(PubKeyRequestMsg.PubKeyRequest(user))
    ensures PubKeyRequestMsg.Decode(JObj(UserRequestObject(PUB_KEY_REQUEST_TYPE, user)))
            == Ok(PubKeyRequestMsg.PubKeyRequest(user))
  {
    PubKeyRequestMsg.RoundTrip(PubKeyRequestMsg.PubKeyRequest(user));
  }

  /** `GetMessageRequest` writes exactly what `GetMessage.java` writes. */
  lemma GetMessageRequestWireCompatible(user: Option<string>)
    ensures JObj(UserRequestObject(GET_MESSAGE_TYPE, user)) == GetMsg.Encode(GetMsg.Get(user))
    ensures GetMsg.Decode(JObj(UserRequestObject(GET_MESSAGE_TYPE, user))) == Ok(GetMsg.Get(user))
  {
    GetMsg.RoundTrip(GetMsg.Get(user));
  }

  class PubKeyRequestMessage {
    const msgType: string
    var user: Option<string>

    constructor (user: Option<string>)
      ensures msgType == PUB_KEY_REQUEST_TYPE && this.user == user
    {
      msgType := PUB_KEY_REQUEST_TYPE;
      this.user := user;
    }

    /** `new PubKeyRequestMessage(JSONObject)`: the user is cast, the tag not checked. */
    static method FromObject(o: Object) returns (r: Result<PubKeyRequestMessage>)
      ensures r.Ok? <==> GetStr(o, "user").Ok?
      ensures r.Ok? ==> fresh(r.value) && r.value.msgType == PUB_KEY_REQUEST_TYPE
                        && Ok(r.value.user) == GetStr(o, "user")
      ensures r.Err? ==> r.fault == ClassCast
    {
      var u := GetStr(o, "user");
      if u.Err? {
        return Err(u.fault);
      }
      var m := new PubKeyRequestMessage(u.value);
      return Ok(m);
    }

    function ToJsonObject(): (o: Object)
      reads this
      ensures GetStr(o, "user") == Ok(user)
    {
      UserRequestObject(msgType, user)
    }

    /** `deserialize`: a non-object is ignored; an object has its user cast. */
    method Deserialize(j: JsonValue) returns (thrown: Option<Fault>)
      modifies this
      ensures !j.JObj? ==> thrown == None && user == old(user)
      ensures j.JObj? ==> (thrown.None? <==> GetStr(j.fields, "user").Ok?)
      ensures j.JObj? && thrown.None? ==> Ok(user) == GetStr(j.fields, "user")
      ensures thrown.Some? ==> thrown == Some(ClassCast) && user == old(user)
    {
      if j.JObj? {
        var u := GetStr(j.fields, "user");
        if u.Err? {
          return Some(u.fault);
        }
        user := u.value;
      }
      return None;
    }
  }

  class GetMessageRequest {
    const msgType: string
    var user: Option<string>

    constructor (user: Option<string>)
      ensures msgType == GET_MESSAGE_TYPE && this.user == user
    {
      msgType := GET_MESSAGE_TYPE;
      this.user := user;
    }

    /** `new GetMessageRequest(JSONObject)`: the user is cast, the tag not checked. */
    static method FromObject(o: Object) returns (r: Result<GetMessageRequest>)
      ensures r.Ok? <==> GetStr(o, "user").Ok?
      ensures r.Ok? ==> fresh(r.value) && r.value.msgType == GET_MESSAGE_TYPE
                        && Ok(r.value.user) == GetStr(o, "user")
      ensures r.Err? ==> r.fault == ClassCast
    {
      var u := GetStr(o, "user");
      if u.Err? {
        return Err(u.fault);
      }
      var m := new GetMessageRequest(u.value);
      return Ok(m);
    }

    function ToJsonObject(): (o: Object)
      reads this
      ensures GetStr(o, "user") == Ok(user)
    {
      UserRequestObject(msgType, user)
    }

    /** `deserialize`: a non-object is ignored; an object has its user cast. */
    method Deserialize(j: JsonValue) returns (thrown: Option<Fault>)
      modifies this
      ensures !j.JObj? ==> thrown == None && user == old(user)
      ensures j.JObj? ==> (thrown.None? <==> GetStr(j.fields, "user").Ok?)
      ensures j.JObj? && thrown.None? ==> Ok(user) == GetStr(j.fields, "user")
      ensures thrown.Some? ==> thrown == Some(ClassCast) && user == old(user)
    {
      if j.JObj? {
        var u := GetStr(j.fields, "user");
        if u.Err? {
          return Some(u.fault);
        }
        user := u.value;
      }
      return None;
    }
  }

  // ------------------------------------------------ GetResponseMessage

  /** The "posts" array `GetResponseMessage.toJSONObject` writes. */
  function EncodePostArray(ps: seq<SealedPost>): seq<JsonValue> {
    seq(|ps|, i requires 0 <= i < |ps| => JObj(EncodePost(ps[i])))
  }

  /** `GetResponseMessage.toJSONObject`: the tag and one tagged post object per post. */
  function EncodeResponse(ps: seq<SealedPost>): (o: Object)
    ensures o.Keys == {"type", "posts"} && HasType(o, GET_RESPONSE_TYPE)
    ensures o["posts"].JArr? && |o["posts"].items| == |ps|
  {
    map["type" := JStr(GET_RESPONSE_TYPE), "posts" := JArr(EncodePostArray(ps))]
  }

  /** `new Post((JSONObject) postsArray.get(i))`: a null element passes the cast and then
      fails inside the constructor; any other non-object fails the cast. */
  function ElementPost(j: JsonValue): (r: Result<SealedPost>)
    ensures j.JObj? ==> r == PostFromObject(j.fields)
    ensures j == JNull ==> r == Err(NullPointer)
    ensures !j.JObj? && j != JNull ==> r == Err(ClassCast)
  {
    match j
    case JObj(o) => PostFromObject(o)
    case JNull => Err(NullPointer)
    case _ => Err(ClassCast)
  }

  /** Every element as a post, or the fault of the first one that fails. */
  function ElementPosts(items: seq<JsonValue>): (r: Result<seq<SealedPost>>)
    ensures r.Ok? <==> forall i | 0 <= i < |items| :: ElementPost(items[i]).Ok?
    ensures r.Ok? ==> |r.value| == |items|
                      && forall i | 0 <= i < |items| :: ElementPost(items[i]) == Ok(r.value[i])
  {
    if items == [] then Ok([])
    else match ElementPost(items[0])
      case Err(f) => Err(f)
      case Ok(p) =>
        match ElementPosts(items[1..])
        case Err(f) => Err(f)
        case Ok(ps) => Ok([p] + ps)
  }

  /** When the elements before `i` are posts and element `i` is not, the fault is
      element `i`'s. */
  lemma {:induction false} FirstFailingElement(items: seq<JsonValue>, i: nat)
    requires i < |items| && ElementPost(items[i]).Err?
    requires forall k | 0 <= k < i :: ElementPost(items[k]).Ok?
    ensures ElementPosts(items) == Err(ElementPost(items[i]).fault)
  {
    if i > 0 {
      assert ElementPost(items[0]).Ok?;
      FirstFailingElement(items[1..], i - 1);
    }
  }

  /** `GetResponseMessage.deserialize` as a value: `Ok(None)` when nothing is assigned
      (a non-object, or no "posts"), `Ok(Some(ps))` for the new array's contents. */
  function DecodeResponse(j: JsonValue): (r: Result<Option<seq<SealedPost>>>)
    ensures !j.JObj? ==> r == Ok(None)
    ensures j.JObj? && ("posts" !in j.fields || j.fields["posts"] == JNull) ==> r == Ok(None)
    ensures j.JObj? && "posts" in j.fields && !j.fields["posts"].JArr? && j.fields["posts"] != JNull
            ==> r == Err(ClassCast)
    ensures j.JObj? && "posts" in j.fields && j.fields["posts"].JArr?
            ==> r == match ElementPosts(j.fields["posts"].items)
                     case Err(f) => Err(f)
                     case Ok(ps) => Ok(Some(ps))
  {
    if !j.JObj? then Ok(None)
    else if "posts" !in j.fields then Ok(None)
    else match j.fields["posts"]
      case JNull => Ok(None)
      case JArr(items) =>
        (match ElementPosts(items)
         case Err(f) => Err(f)
         case Ok(ps) => Ok(Some(ps)))
      case _ => Err(ClassCast)
  }

  lemma {:induction false} ElementPostsOfEncoded(ps: seq<SealedPost>)
    ensures ElementPosts(EncodePostArray(ps)) == Ok(ps)
  {
    if ps != [] {
      var items := EncodePostArray(ps);
      PostRoundTrip(ps[0]);
      assert ElementPost(items[0]) == Ok(ps[0]);
      assert items[1..] == EncodePostArray(ps[1..]);
      ElementPostsOfEncoded(ps[1..]);
      assert [ps[0]] + ps[1..] == ps;
    }
  }

  /** Deserializing what `toJSONObject` wrote gives the same posts in the same order. */
  lemma ResponseRoundTrip(ps: seq<SealedPost>)
    ensures DecodeResponse(JObj(EncodeResponse(ps))) == Ok(Some(ps))
  {
    ElementPostsOfEncoded(ps);
  }

  /** The server's `ResponseMessage` deserializer reads this class's output correctly:
      the "post" tag on each element is ignored by `PostObject`. */
  lemma {:induction false} ResponseMessageReadsGetResponse(ps: seq<SealedPost>)
    ensures ResponseMsg.Decode(JObj(EncodeResponse(ps))) == Ok(ps)
  {
    var items := EncodePostArray(ps);
    assert ResponseMsg.PostsArray(JObj(EncodeResponse(ps))) == Ok(items);
    var pre := ResponseMsg.DecodedPrefix(items);
    forall i | 0 <= i < |ps|
      ensures PostObjectMsg.Decode(items[i]) == Ok(ps[i])
    {
      PostReadsLikePostObject(EncodePost(ps[i]));
      PostRoundTrip(ps[i]);
    }
    assert |pre| == |items|;
    assert pre == ps;
  }

  class GetResponseMessage {
    const msgType: string
    var posts: array<SealedPost>

    constructor (posts: array<SealedPost>)
      ensures msgType == GET_RESPONSE_TYPE && this.posts == posts
    {
      msgType := GET_RESPONSE_TYPE;
      this.posts := posts;
    }

    /** `toJSONObject`: the loop adds each post's tagged object to the array. */
    method ToJsonObject() returns (o: Object)
      requires msgType == GET_RESPONSE_TYPE
      ensures o == EncodeResponse(posts[..])
    {
      var postsArray: seq<JsonValue> := [];
      for i := 0 to posts.Length
        invariant postsArray == EncodePostArray(posts[..i])
      {
        assert posts[..i + 1] == posts[..i] + [posts[i]];
        postsArray := postsArray + [JObj(EncodePost(posts[i]))];
      }
      assert posts[..posts.Length] == posts[..];
      o := map["type" := JStr(msgType), "posts" := JArr(postsArray)];
    }

    /** `deserialize`: a new array is filled element by element and assigned to `posts`
        only after the last element, so a failing element leaves `posts` as it was. */
    method Deserialize(j: JsonValue) returns (thrown: Option<Fault>)
      modifies this
      ensures DecodeResponse(j).Err? ==> thrown == Some(DecodeResponse(j).fault) && posts == old(posts)
      ensures DecodeResponse(j) == Ok(None) ==> thrown == None && posts == old(posts)
      ensures DecodeResponse(j).Ok? && DecodeResponse(j).value.Some? ==>
                thrown == None && fresh(posts) && posts[..] == DecodeResponse(j).value.value
    {
      if !j.JObj? || "posts" !in j.fields || j.fields["posts"] == JNull {
        return None;
      }
      if !j.fields["posts"].JArr? {
        return Some(ClassCast);
      }
      var items := j.fields["posts"].items;
      var decoded := new SealedPost[|items|](_ => PostObjectMsg.SealedPost(None, None, None, None));
      for i := 0 to |items|
        invariant posts == old(posts)
        invariant forall k | 0 <= k < i :: ElementPost(items[k]) == Ok(decoded[k])
      {
        var p := ElementPost(items[i]);
        if p.Err? {
          FirstFailingElement(items, i);
          assert DecodeResponse(j) == Err(p.fault);
          return Some(p.fault);
        }
        decoded[i] := p.value;
      }
      posts := decoded;
      return None;
    }
  }
}
