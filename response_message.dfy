/** `ResponseMessage`: the server's answer to a GetMessage request when the mailbox is
    not empty, tagged "GetResponseMessage" and carrying the posts as a JSON array. */
module ResponseMsg {
  import opened Base
  import opened Json
  import PostObjectMsg

  type SealedPost = PostObjectMsg.SealedPost

  const TYPE := "GetResponseMessage"

  /** The "posts" array: one stored-post object per post, in order. */
  function EncodePosts(posts: seq<SealedPost>): seq<JsonValue> {
    seq(|posts|, i requires 0 <= i < |posts| => PostObjectMsg.Encode(posts[i]))
  }

  /** `toJSONType`: type "GetResponseMessage" and a "posts" array with one entry per post. */
  function Encode(posts: seq<SealedPost>): (j: JsonValue)
    ensures j.JObj? && j.fields.Keys == {"type", "posts"} && HasType(j.fields, TYPE)
    ensures j.fields["posts"].JArr? && |j.fields["posts"].items| == |posts|
  {
    JObj(map["type" := JStr(TYPE), "posts" := JArr(EncodePosts(posts))])
  }

  /** The checks made before `posts` is touched: a JSON object, the right type, and a
      "posts" entry that is an array. */
  function PostsArray(j: JsonValue): (r: Result<seq<JsonValue>>)
    ensures r.Err? ==> r.fault == InvalidObject
    ensures r.Ok? <==> j.JObj? && HasType(j.fields, TYPE) && "posts" in j.fields && j.fields["posts"].JArr?
  {
    match CheckTyped(j, TYPE)
    case Err(f) => Err(f)
    case Ok(o) => if "posts" in o && o["posts"].JArr? then Ok(o["posts"].items) else Err(InvalidObject)
  }

  /** The posts decoded before the first element that fails to decode. */
  function DecodedPrefix(items: seq<JsonValue>): (ps: seq<SealedPost>)
    ensures |ps| <= |items|
    ensures forall i | 0 <= i < |ps| :: PostObjectMsg.Decode(items[i]) == Ok(ps[i])
    ensures |ps| < |items| ==> PostObjectMsg.Decode(items[|ps|]).Err?
  {
    if items == [] then []
    else match PostObjectMsg.Decode(items[0])
      case Err(_) => []
      case Ok(p) => [p] + DecodedPrefix(items[1..])
  }

  /** `deserialize` as a value: every element must decode as a stored post. */
  function Decode(j: JsonValue): (r: Result<seq<SealedPost>>)
    ensures PostsArray(j).Err? ==> r == Err(InvalidObject)
    ensures r.Ok? ==> PostsArray(j).Ok? && |r.value| == |PostsArray(j).value|
  {
    match PostsArray(j)
    case Err(f) => Err(f)
    case Ok(items) =>
      var ps := DecodedPrefix(items);
      if |ps| == |items| then Ok(ps) else Err(PostObjectMsg.Decode(items[|ps|]).fault)
  }

  lemma {:induction false} DecodeEncodedPosts(posts: seq<SealedPost>)
    ensures DecodedPrefix(EncodePosts(posts)) == posts
  {
    if posts != [] {
      PostObjectMsg.RoundTrip(posts[0]);
      assert EncodePosts(posts)[1..] == EncodePosts(posts[1..]);
      DecodeEncodedPosts(posts[1..]);
    }
  }

  /** Deserializing what `toJSONType` wrote gives the same posts in the same order. */
  lemma RoundTrip(posts: seq<SealedPost>)
    ensures Decode(Encode(posts)) == Ok(posts)
  {
    DecodeEncodedPosts(posts);
  }

  class ResponseMessage {
    var posts: seq<SealedPost>

    constructor (posts: seq<SealedPost>)
      ensures this.posts == posts
    {
      this.posts := posts;
    }

    /** The default constructor: an empty post list. */
    constructor Empty()
      ensures posts == []
    {
      posts := [];
    }

    /** `toJSONType`: the loop appends each post's JSON form to the array. */
    method ToJsonType() returns (j: JsonValue)
      ensures j == Encode(posts)
    {
      var postArray: seq<JsonValue> := [];
      for i := 0 to |posts|
        invariant postArray == EncodePosts(posts[..i])
      {
        var post := new PostObjectMsg.PostObject(posts[i].user, posts[i].message,
                                                 posts[i].wrappedkey, posts[i].iv);
        assert posts[..i + 1] == posts[..i] + [posts[i]];
        postArray := postArray + [post.ToJsonType()];
      }
      assert posts[..|posts|] == posts;
      j := JObj(map["type" := JStr(TYPE), "posts" := JArr(postArray)]);
    }

    /** `deserialize`: the three checks come before `posts` is replaced. After them
        `posts` becomes a new list filled element by element, so an element that fails
        leaves `posts` holding the posts decoded before it. */
    method Deserialize(j: JsonValue) returns (thrown: Option<Fault>)
      modifies this
      ensures thrown.None? <==> Decode(j).Ok?
      ensures thrown.Some? ==> Decode(j) == Err(thrown.value)
      ensures thrown.None? ==> posts == Decode(j).value
      ensures PostsArray(j).Err? ==> thrown == Some(InvalidObject) && posts == old(posts)
      ensures PostsArray(j).Ok? ==> posts == DecodedPrefix(PostsArray(j).value)
    {
      var arr := PostsArray(j);
      if arr.Err? {
        return Some(arr.fault);
      }
      var items := arr.value;
      posts := [];
      var i := 0;
      while i < |items|
        invariant i <= |DecodedPrefix(items)|
        invariant posts == DecodedPrefix(items)[..i]
      {
        var post := new PostObjectMsg.PostObject.Empty();
        var failed := post.Deserialize(items[i]);
        if failed.Some? {
          return failed;
        }
        posts := posts + [post.Value()];
        i := i + 1;
      }
      return None;
    }
  }
}
