/** `BulletinBoard`: the server's store of sealed posts, grouped by recipient, with
    its image on disk. Writing and reading the file are not modelled: saving produces
    the JSON image the file would receive, and loading starts from the file's contents
    as a parameter. */
module Board {
  import opened Base
  import opened Json
  import PostObjectMsg
  import ResponseMsg

  type SealedPost = PostObjectMsg.SealedPost

  /** A recipient as a map key; Java's HashMap admits the null name. */
  type Name = Option<string>

  type Posts = map<Name, seq<SealedPost>>

  /** What the constructor finds on disk: no file, a file the JSON reader rejects, or
      a file holding a JSON object. */
  datatype BoardFile = Missing | Unreadable | Stored(root: Object)

  /** `addToMemory` on the map: the post goes at the end of its recipient's list, a
      new list being created for a first post. */
  function Append(m: Posts, p: SealedPost): (r: Posts)
    ensures r.Keys == m.Keys + {p.user}
    ensures forall u | u in m && u != p.user :: r[u] == m[u]
  {
    m[p.user := Lookup(m, p.user) + [p]]
  }

  /** `getOrDefault(username, new ArrayList<>())`. */
  function Lookup(m: Posts, u: Name): seq<SealedPost> {
    if u in m then m[u] else []
  }

  /** The shape `addToMemory` keeps: every list is non-empty and holds only posts
      addressed to its key. */
  predicate WellFormed(m: Posts) {
    forall u | u in m :: m[u] != [] && forall p | p in m[u] :: p.user == u
  }

  /** The posts addressed to `u`, in their order in `ps`. Its own contract only bounds
      the length; what it holds is stated by `FilterMembers`, `FilterConcat` and
      `GroupedIsFilter`. */
  function Filter(ps: seq<SealedPost>, u: Name): (r: seq<SealedPost>)
    ensures |r| <= |ps|
  {
    if ps == [] then []
    else Filter(ps[..|ps| - 1], u) + (if ps[|ps| - 1].user == u then [ps[|ps| - 1]] else [])
  }

  /** A user's filtered list holds exactly that user's posts. */
  lemma {:induction false} FilterMembers(ps: seq<SealedPost>, u: Name)
    ensures forall p :: p in Filter(ps, u) <==> p in ps && p.user == u
  {
    if ps != [] {
      FilterMembers(ps[..|ps| - 1], u);
      assert ps == ps[..|ps| - 1] + [ps[|ps| - 1]];
    }
  }


  /** The map built by adding the posts one after the other. */
  function Grouped(ps: seq<SealedPost>): Posts {
    if ps == [] then map[] else Append(Grouped(ps[..|ps| - 1]), ps[|ps| - 1])
  }

  lemma GroupedSnoc(ps: seq<SealedPost>, p: SealedPost)
    ensures Grouped(ps + [p]) == Append(Grouped(ps), p)
  {
    assert (ps + [p])[..|ps|] == ps;
  }

  /** Extending a prefix of `s` by one element. */
  lemma SliceSnoc(s: seq<SealedPost>, i: nat)
    requires i < |s|
    ensures s[..i + 1] == s[..i] + [s[i]]
  {
  }

  /** One post added: the recipient's list grows by that post at its end, every other
      list is unchanged, and the shape is kept. */
  lemma AppendAddsAtEnd(m: Posts, p: SealedPost, u: Name)
    requires WellFormed(m)
    ensures WellFormed(Append(m, p))
    ensures Lookup(Append(m, p), u) == if u == p.user then Lookup(m, u) + [p] else Lookup(m, u)
  {
  }

  /** Grouping keeps each recipient's posts in their original order, and only them. */
  lemma {:induction false} GroupedIsFilter(ps: seq<SealedPost>)
    ensures WellFormed(Grouped(ps))
    ensures forall u :: Lookup(Grouped(ps), u) == Filter(ps, u)
  {
    if ps != [] {
      var init, last := ps[..|ps| - 1], ps[|ps| - 1];
      GroupedIsFilter(init);
      forall u
        ensures Lookup(Grouped(ps), u) == Filter(ps, u)
      {
        AppendAddsAtEnd(Grouped(init), last, u);
      }
      AppendAddsAtEnd(Grouped(init), last, last.user);
    }
  }

  lemma {:induction false} FilterConcat(a: seq<SealedPost>, b: seq<SealedPost>, u: Name)
    ensures Filter(a + b, u) == Filter(a, u) + Filter(b, u)
  {
    if b == [] {
      assert a + b == a;
    } else {
      var init, last := b[..|b| - 1], b[|b| - 1];
      assert (a + b)[..|a + b| - 1] == a + init;
      assert (a + b)[|a + b| - 1] == last;
      FilterConcat(a, init, u);
    }
  }

  lemma {:induction false} FilterUniform(ps: seq<SealedPost>, k: Name, u: Name)
    requires forall p | p in ps :: p.user == k
    ensures Filter(ps, u) == if k == u then ps else []
  {
    if ps != [] {
      assert ps[|ps| - 1] in ps;
      FilterUniform(ps[..|ps| - 1], k, u);
      assert ps[..|ps| - 1] + [ps[|ps| - 1]] == ps;
    }
  }

  predicate Distinct(keys: seq<Name>) {
    forall i, j | 0 <= i < j < |keys| :: keys[i] != keys[j]
  }

  /** The posts of the lists for `keys`, list after list: the order in which the save
      loop visits `userPosts.values()`. */
  function Concat(m: Posts, keys: seq<Name>): (r: seq<SealedPost>)
    requires forall k | k in keys :: k in m
  {
    if keys == [] then [] else Concat(m, keys[..|keys| - 1]) + m[keys[|keys| - 1]]
  }

  lemma {:induction false} FilterOfConcat(m: Posts, keys: seq<Name>, u: Name)
    requires WellFormed(m) && Distinct(keys)
    requires forall k | k in keys :: k in m
    ensures Filter(Concat(m, keys), u) == if u in keys then m[u] else []
  {
    if keys != [] {
      var init, last := keys[..|keys| - 1], keys[|keys| - 1];
      assert keys == init + [last];
      assert Distinct(init);
      assert forall k | k in init :: k in m;
      FilterOfConcat(m, init, u);
      var before := Concat(m, init);
      assert Concat(m, keys) == before + m[last];
      FilterConcat(before, m[last], u);
      assert last in m;
      FilterUniform(m[last], last, u);
      if u == last {
        assert u !in init by {
          forall i | 0 <= i < |init|
            ensures init[i] != u
          {
            assert keys[i] != keys[|keys| - 1];
          }
        }
      } else {
        assert u in keys <==> u in init;
      }
    }
  }

  lemma RegroupAt(m: Posts, keys: seq<Name>, u: Name)
    requires WellFormed(m) && Distinct(keys)
    requires forall k :: k in keys <==> k in m
    ensures WellFormed(Grouped(Concat(m, keys)))
    ensures Lookup(Grouped(Concat(m, keys)), u) == Lookup(m, u)
  {
    GroupedIsFilter(Concat(m, keys));
    FilterOfConcat(m, keys, u);
  }

  /** Regrouping the posts of all lists, taken list by list in any order of the keys,
      rebuilds the map exactly. */
  lemma RegroupRestores(m: Posts, keys: seq<Name>)
    requires WellFormed(m) && Distinct(keys)
    requires forall k :: k in keys <==> k in m
    ensures Grouped(Concat(m, keys)) == m
  {
    var g := Grouped(Concat(m, keys));
    forall u
      ensures (u in g <==> u in m) && (u in m ==> g[u] == m[u])
    {
      RegroupAt(m, keys, u);
    }
    assert g.Keys == m.Keys;
  }

  /** The document `saveBulletinBoard` writes: `{"posts": [...]}`. */
  function BoardImage(ps: seq<SealedPost>): (o: Object)
    ensures o.Keys == {"posts"} && o["posts"].JArr? && |o["posts"].items| == |ps|
  {
    map["posts" := JArr(ResponseMsg.EncodePosts(ps))]
  }

  /** The posts the constructor adds. A missing "posts" entry throws
      NullPointerException and a non-array ClassCastException; the loop stops at the
      first element that fails to deserialize. Every exception is caught, keeping the
      posts added before it. */
  function LoadedPosts(file: BoardFile): (ps: seq<SealedPost>)
    ensures ps != [] ==> file.Stored? && "posts" in file.root && file.root["posts"].JArr?
    ensures file.Stored? && "posts" in file.root && file.root["posts"].JArr? ==>
              var items := file.root["posts"].items;
              && |ps| <= |items|
              && (forall i | 0 <= i < |ps| :: PostObjectMsg.Decode(items[i]) == Ok(ps[i]))
              && (|ps| < |items| ==> PostObjectMsg.Decode(items[|ps|]).Err?)
  {
    match file
    case Stored(root) =>
      if "posts" in root && root["posts"].JArr? then ResponseMsg.DecodedPrefix(root["posts"].items)
      else []
    case _ => []
  }

  /** Loading a saved image gives back the posts in the order they were written. */
  lemma LoadSavedImage(ps: seq<SealedPost>)
    ensures LoadedPosts(Stored(BoardImage(ps))) == ps
  {
    ResponseMsg.DecodeEncodedPosts(ps);
  }

  /** A board saved by `SaveImage` and read back by the constructor is the same board. */
  lemma SaveThenLoad(m: Posts, keys: seq<Name>)
    requires WellFormed(m) && Distinct(keys)
    requires forall k :: k in keys <==> k in m
    ensures Grouped(LoadedPosts(Stored(BoardImage(Concat(m, keys))))) == m
  {
    LoadSavedImage(Concat(m, keys));
    RegroupRestores(m, keys);
  }

  class BulletinBoard {
    var userPosts: Posts

    predicate Valid()
      reads this
    {
      WellFormed(userPosts)
    }

    /** The constructor: load the stored posts, or write an empty board when there is
        no file yet. */
    constructor (file: BoardFile)
      ensures Valid() && userPosts == Grouped(LoadedPosts(file))
    {
      userPosts := map[];
      new;
      if file.Missing? {
        var image, keys := SaveImage();
      } else if file.Stored? && "posts" in file.root && file.root["posts"].JArr? {
        LoadPosts(file.root["posts"].items);
      }
      GroupedIsFilter(LoadedPosts(file));
    }

    /** The constructor's loop over the stored array: each element is deserialized
        into a new PostObject and added; the first failure ends the loop, keeping the
        posts added before it. */
    method LoadPosts(items: seq<JsonValue>)
      requires userPosts == map[]
      modifies this
      ensures userPosts == Grouped(ResponseMsg.DecodedPrefix(items))
    {
      ghost var prefix := ResponseMsg.DecodedPrefix(items);
      ghost var loaded: seq<SealedPost> := [];
      var i := 0;
      while i < |items|
        invariant i <= |prefix| && loaded == prefix[..i]
        invariant userPosts == Grouped(loaded)
      {
        var post := new PostObjectMsg.PostObject.Empty();
        var thrown := post.Deserialize(items[i]);
        if thrown.Some? {
          break;
        }
        assert i < |prefix| && post.Value() == prefix[i];
        SliceSnoc(prefix, i);
        GroupedSnoc(loaded, post.Value());
        AddToMemory(post.Value());
        loaded := loaded + [post.Value()];
        i := i + 1;
      }
      assert loaded == prefix;
    }

    /** `addToMemory`. */
    method AddToMemory(post: SealedPost)
      modifies this
      ensures userPosts == Append(old(userPosts), post)
    {
      var list := if post.user in userPosts then userPosts[post.user] else [];
      userPosts := userPosts[post.user := list + [post]];
    }

    /** `addPost`: the post is kept in memory whether or not the save succeeds, and the
        result is the save's outcome. */
    method AddPost(post: SealedPost, saved: bool) returns (ok: bool)
      requires Valid()
      modifies this
      ensures Valid()
      ensures userPosts == Append(old(userPosts), post)
      ensures ok == saved
    {
      AppendAddsAtEnd(userPosts, post, post.user);
      AddToMemory(post);
      var image, keys := SaveImage();
      ok := saved;
    }

    /** `getPosts`: the recipient's posts, empty exactly when none were ever added. */
    function GetPosts(username: Name): (ps: seq<SealedPost>)
      reads this
      requires Valid()
      ensures ps == [] <==> username !in userPosts
      ensures forall p | p in ps :: p.user == username
    {
      Lookup(userPosts, username)
    }

    /** The image `saveBulletinBoard` writes: the lists in the map's iteration order
        (`keys`, which the map chooses), each list in its own order. */
    method SaveImage() returns (image: Object, ghost keys: seq<Name>)
      ensures Distinct(keys) && forall k :: k in keys <==> k in userPosts
      ensures image == BoardImage(Concat(userPosts, keys))
    {
      var remaining := userPosts.Keys;
      var postsArray: seq<JsonValue> := [];
      keys := [];
      while remaining != {}
        invariant remaining <= userPosts.Keys
        invariant Distinct(keys)
        invariant forall k :: k in keys <==> k in userPosts && k !in remaining
        invariant postsArray == ResponseMsg.EncodePosts(Concat(userPosts, keys))
        decreases remaining
      {
        var k :| k in remaining;
        ghost var before := Concat(userPosts, keys);
        postsArray := AddEncoded(postsArray, userPosts[k]);
        EncodePostsConcat(before, userPosts[k]);
        ghost var visited := keys;
        keys := keys + [k];
        assert keys[..|keys| - 1] == visited;
        remaining := remaining - {k};
      }
      image := map["posts" := JArr(postsArray)];
    }
  }

  /** The inner save loop: each post's JSON form added to the array, in order. */
  method AddEncoded(postsArray: seq<JsonValue>, posts: seq<SealedPost>) returns (r: seq<JsonValue>)
    ensures r == postsArray + ResponseMsg.EncodePosts(posts)
  {
    r := postsArray;
    for i := 0 to |posts|
      invariant r == postsArray + ResponseMsg.EncodePosts(posts[..i])
    {
      var post := new PostObjectMsg.PostObject(posts[i].user, posts[i].message,
                                               posts[i].wrappedkey, posts[i].iv);
      assert ResponseMsg.EncodePosts(posts[..i + 1]) == ResponseMsg.EncodePosts(posts[..i]) + [post.ToJsonType()];
      r := r + [post.ToJsonType()];
    }
    assert posts[..|posts|] == posts;
  }

  lemma EncodePostsConcat(a: seq<SealedPost>, b: seq<SealedPost>)
    ensures ResponseMsg.EncodePosts(a + b) == ResponseMsg.EncodePosts(a) + ResponseMsg.EncodePosts(b)
  {
  }
}
