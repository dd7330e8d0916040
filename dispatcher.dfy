/** One turn of the server's accept loop: read the request's "type", deserialize the
    request, act on the user store and the board, and answer. The socket, TLS and the
    loop itself are not modelled; one call handles one received JSON object. */
module Service {
  import opened Base
  import opened Json
  import Users
  import Board
  import CreateMsg
  import AuthenticateMsg
  import PubKeyRequestMsg
  import PostMsg
  import GetMsg
  import StatusMsg
  import ResponseMsg
  import PostObjectMsg

  /** What one request leads to: a reply sent; no reply, the loop going on (an
      IOException was caught, or the type matched no case); or the end of the server,
      by the early `return` on a missing type (`None`) or by an exception that escapes
      the loop (`Some`). */
  datatype Outcome = Replied(reply: JsonValue) | Silent | ServerStops(cause: Option<Fault>)

  /** The inputs a request draws from outside the program: the random salt and TOTP
      secret of a new account, whether rewriting each file succeeds, and the clock. */
  datatype Env = Env(salt: Users.Salt, totpKey: Users.TotpSecret, usersSaved: bool,
                     boardSaved: bool, nowMillis: nat)

  datatype State = State(users: map<Users.Name, Users.Record>, posts: Board.Posts)

  datatype Step = Step(outcome: Outcome, after: State)

  /** An exception thrown while a request is handled: only an IOException is caught. */
  function FaultOutcome(f: Fault): (o: Outcome)
    ensures o.Silent? <==> f.IsIOException()
    ensures !o.Silent? ==> o == ServerStops(Some(f))
  {
    if f.IsIOException() then Silent else ServerStops(Some(f))
  }

  function StatusReply(ok: bool, payload: string): JsonValue {
    StatusMsg.Encode(StatusMsg.Status(ok, Some(payload)))
  }

  // ------------------------------------------------------------ the five cases

  /** The Create case: the board is untouched, and the only possible change to the
      user store is one record added under the request's name, which was free. */
  function ServeCreate(c: Users.Crypto, s: State, m: Object, env: Env): (r: Step)
    ensures r.after.posts == s.posts
    ensures r.after.users != s.users ==>
              CreateMsg.Decode(JObj(m)).Ok?
              && var u := CreateMsg.Decode(JObj(m)).value.user;
              u !in s.users && u in r.after.users && r.after.users == s.users[u := r.after.users[u]]
  {
    match CreateMsg.Decode(JObj(m))
    case Err(f) => Step(FaultOutcome(f), s)
    case Ok(msg) =>
      var hashed := c.scrypt(msg.pass, env.salt);
      if msg.user in s.users || hashed.None? then
        Step(Replied(StatusReply(false, "User already exists.")), s)
      else
        var users := s.users[msg.user := Users.NewRecord(c, msg.user, hashed.value, env.salt,
                                                          env.totpKey, msg.pubkey)];
        var after := State(users, s.posts);
        if !env.usersSaved then Step(Replied(StatusReply(false, "User already exists.")), after)
        else match Users.TotpKeyText(users, msg.user)
          case Err(f) => Step(ServerStops(Some(f)), after)
          case Ok(k) => Step(Replied(StatusMsg.Encode(StatusMsg.Status(true, k))), after)
  }

  /** The Authenticate case's handler once its message is deserialized. */
  function AuthenticateReply(c: Users.Crypto, users: map<Users.Name, Users.Record>,
                             auth: AuthenticateMsg.Authenticate, nowMillis: nat): JsonValue
  {
    var valid := Users.PasswordValid(c, users, auth.user, auth.pass)
                 && Users.TotpValid(c, users, auth.user, auth.otp, nowMillis);
    StatusReply(valid, if valid then "Authentication successful." else "Authentication failed.")
  }

  /** The Authenticate case changes nothing, and answers whenever the request
      deserializes. */
  function ServeAuthenticate(c: Users.Crypto, s: State, m: Object, env: Env): (r: Step)
    ensures r.after == s
    ensures r.outcome.Replied? <==> AuthenticateMsg.Decode(JObj(m)).Ok?
  {
    match AuthenticateMsg.Decode(JObj(m))
    case Err(f) => Step(FaultOutcome(f), s)
    case Ok(auth) => Step(Replied(AuthenticateReply(c, s.users, auth, env.nowMillis)), s)
  }

  /** The PubKeyRequest case changes nothing. */
  function ServePubKeyRequest(s: State, m: Object): (r: Step)
    ensures r.after == s
  {
    match PubKeyRequestMsg.Decode(JObj(m))
    case Err(f) => Step(FaultOutcome(f), s)
    case Ok(req) =>
      match Users.PublicKey(s.users, req.user)
      case Err(f) => Step(ServerStops(Some(f)), s)
      case Ok(key) =>
        Step(Replied(StatusMsg.Encode(StatusMsg.Status(key.Some?,
                                                       if key.Some? then key else Some("User not found.")))), s)
  }

  /** The Post case leaves the user store alone and changes the board only for a
      request that deserializes and names a known recipient. */
  function ServePost(s: State, m: Object, env: Env): (r: Step)
    ensures r.after.users == s.users
    ensures r.after.posts != s.posts ==> PostMsg.Decode(JObj(m)).Ok? && PostMsg.Decode(JObj(m)).value.user in s.users
  {
    match PostMsg.Decode(JObj(m))
    case Err(f) => Step(FaultOutcome(f), s)
    case Ok(p) =>
      if p.user !in s.users then Step(Replied(StatusReply(false, "Target user not found.")), s)
      else
        var post := PostObjectMsg.SealedPost(p.user, p.message, p.wrappedkey, p.iv);
        var saved := env.boardSaved;
        Step(Replied(StatusReply(saved, if saved then "Message posted." else "Target user not found.")),
             State(s.users, Board.Append(s.posts, post)))
  }

  /** The GetMessage case changes nothing. */
  function ServeGetMessage(s: State, m: Object): (r: Step)
    ensures r.after == s
  {
    match GetMsg.Decode(JObj(m))
    case Err(f) => Step(FaultOutcome(f), s)
    case Ok(g) =>
      var posts := Board.Lookup(s.posts, g.user);
      if posts == [] then Step(Replied(StatusReply(false, "No such user or no messages.")), s)
      else Step(Replied(ResponseMsg.Encode(posts)), s)
  }

  /** The whole turn: `(String) message.get("type")`, then the switch. */
  function Serve(c: Users.Crypto, s: State, m: Object, env: Env): (r: Step)
    ensures r.after != s ==> HasType(m, CreateMsg.TYPE) || HasType(m, PostMsg.TYPE)
  {
    match GetStr(m, "type")
    case Err(f) => Step(ServerStops(Some(f)), s)
    case Ok(None) => Step(ServerStops(None), s)
    case Ok(Some(t)) =>
      if t == "Create" then ServeCreate(c, s, m, env)
      else if t == "Authenticate" then ServeAuthenticate(c, s, m, env)
      else if t == "PubKeyRequest" then ServePubKeyRequest(s, m)
      else if t == "Post" then ServePost(s, m, env)
      else if t == "GetMessage" then ServeGetMessage(s, m)
      else Step(Silent, s)
  }

  // ------------------------------------------------------------ the loop body

  /** The Authenticate handler: both checks are made and the reply tells whether both
      passed. */
  method HandleAuthenticate(c: Users.Crypto, db: Users.UserDatabase, auth: AuthenticateMsg.Authenticate,
                            nowMillis: nat) returns (reply: JsonValue)
    ensures reply == AuthenticateReply(c, db.users, auth, nowMillis)
    ensures StatusMsg.Decode(reply).Ok?
    ensures StatusMsg.Decode(reply).value.status
            <==> Users.PasswordValid(c, db.users, auth.user, auth.pass)
                 && Users.TotpValid(c, db.users, auth.user, auth.otp, nowMillis)
  {
    var passOk := db.ValidatePassword(c, auth.user, auth.pass);
    var totpOk := db.ValidateTotp(c, auth.user, auth.otp, nowMillis);
    var valid := passOk && totpOk;
    reply := StatusReply(valid, if valid then "Authentication successful." else "Authentication failed.");
    StatusMsg.RoundTrip(StatusMsg.Status(valid, Some(if valid then "Authentication successful." else "Authentication failed.")));
  }

  /** One request handled against the live user store and board. */
  method Dispatch(c: Users.Crypto, db: Users.UserDatabase, board: Board.BulletinBoard, message: Object,
                  env: Env) returns (out: Outcome)
    requires board.Valid()
    modifies db, board
    ensures board.Valid()
    ensures Step(out, State(db.users, board.userPosts))
            == Serve(c, State(old(db.users), old(board.userPosts)), message, env)
  {
    var t := GetStr(message, "type");
    if t.Err? {
      return ServerStops(Some(t.fault));
    }
    if t.value.None? {
      return ServerStops(None);
    }
    var msgType := t.value.value;
    if msgType == "Create" {
      var createMsg := new CreateMsg.CreateMessage.Empty();
      var thrown := createMsg.Deserialize(JObj(message));
      if thrown.Some? {
        return FaultOutcome(thrown.value);
      }
      var created := db.CreateUser(c, createMsg.user, createMsg.pass, createMsg.pubkey,
                                   env.salt, env.totpKey, env.usersSaved);
      if created {
        var totpKey := db.GetTotpKey(createMsg.user);
        if totpKey.Err? {
          // The record just created holds its TOTP key as a string, so the cast holds.
          assert false;
        }
        out := Replied(StatusMsg.Encode(StatusMsg.Status(true, totpKey.value)));
      } else {
        out := Replied(StatusReply(false, "User already exists."));
      }
    } else if msgType == "Authenticate" {
      var auth := new AuthenticateMsg.AuthenticateMessage.Empty();
      var thrown := auth.Deserialize(JObj(message));
      if thrown.Some? {
        return FaultOutcome(thrown.value);
      }
      // The class expects the tag "authenticate", so `deserialize` has thrown on a
      // request tagged "Authenticate"; the handler after it (`HandleAuthenticate`) is
      // never reached.
      assert false;
    } else if msgType == "PubKeyRequest" {
      var req := new PubKeyRequestMsg.PubKeyRequestMessage.Empty();
      var thrown := req.Deserialize(JObj(message));
      if thrown.Some? {
        return FaultOutcome(thrown.value);
      }
      var pubkey := db.GetPublicKey(req.user);
      if pubkey.Err? {
        return ServerStops(Some(pubkey.fault));
      }
      var found := pubkey.value.Some?;
      out := Replied(StatusMsg.Encode(StatusMsg.Status(found, if found then pubkey.value else Some("User not found."))));
    } else if msgType == "Post" {
      var postMsg := new PostMsg.PostMessage.Empty();
      var thrown := postMsg.Deserialize(JObj(message));
      if thrown.Some? {
        return FaultOutcome(thrown.value);
      }
      var userKnown := db.UserExists(postMsg.user);
      var saved := false;
      if userKnown {
        saved := board.AddPost(PostObjectMsg.SealedPost(postMsg.user, postMsg.message,
                                                        postMsg.wrappedkey, postMsg.iv), env.boardSaved);
      }
      out := Replied(StatusReply(saved, if saved then "Message posted." else "Target user not found."));
    } else if msgType == "GetMessage" {
      var getMsg := new GetMsg.GetMessage.Empty();
      var thrown := getMsg.Deserialize(JObj(message));
      if thrown.Some? {
        return FaultOutcome(thrown.value);
      }
      var posts := board.GetPosts(getMsg.user);
      if posts == [] {
        out := Replied(StatusReply(false, "No such user or no messages."));
      } else {
        var response := new ResponseMsg.ResponseMessage(posts);
        var reply := response.ToJsonType();
        out := Replied(reply);
      }
    } else {
      out := Silent;
    }
  }

  // ------------------------------------------------------------ what a turn promises

  /** The Authenticate case never answers: its message class expects the tag
      "authenticate", so deserializing a request tagged "Authenticate" always throws
      InvalidObjectException, which the loop catches. Nothing changes. */
  lemma AuthenticateNeverAnswered(c: Users.Crypto, s: State, m: Object, env: Env)
    requires HasType(m, "Authenticate")
    ensures Serve(c, s, m, env) == Step(Silent, s)
  {
    AuthenticateMsg.RejectsCapitalisedTag(m);
  }

  /** The message a client sends to log in (tagged "authenticate") reaches no case. */
  lemma ClientLoginIgnored(c: Users.Crypto, s: State, a: AuthenticateMsg.Authenticate, env: Env)
    ensures Serve(c, s, AuthenticateMsg.Encode(a).fields, env) == Step(Silent, s)
  {
  }

  /** A request without a type, or with a null one, ends the server. */
  lemma MissingTypeStops(c: Users.Crypto, s: State, m: Object, env: Env)
    requires "type" !in m || m["type"] == JNull
    ensures Serve(c, s, m, env) == Step(ServerStops(None), s)
  {
  }

  /** A type that is not a string escapes as a ClassCastException and ends the server. */
  lemma NonStringTypeStops(c: Users.Crypto, s: State, m: Object, env: Env)
    requires "type" in m && !m["type"].JStr? && m["type"] != JNull
    ensures Serve(c, s, m, env) == Step(ServerStops(Some(ClassCast)), s)
  {
  }

  /** A string type that names none of the five cases is ignored: no reply, nothing
      changes, and the loop goes on. */
  lemma UnmatchedTypeSilent(c: Users.Crypto, s: State, m: Object, env: Env)
    requires "type" in m && m["type"].JStr?
    requires m["type"].s !in {"Create", "Authenticate", "PubKeyRequest", "Post", "GetMessage"}
    ensures Serve(c, s, m, env) == Step(Silent, s)
  {
  }

  /** PubKeyRequest answers with the user's key on a true status, or "User not found."
      on a false one when the name is unknown or has no key; a stored key that is not
      a string ends the server. Nothing changes. */
  lemma PubKeyRequestReplies(c: Users.Crypto, s: State, user: Option<string>, env: Env)
    ensures var r := Serve(c, s, PubKeyRequestMsg.Encode(PubKeyRequestMsg.PubKeyRequest(user)).fields, env);
      && r.after == s
      && (user !in s.users ==>
            r.outcome == Replied(StatusMsg.Encode(StatusMsg.Status(false, Some("User not found.")))))
      && (Users.PublicKey(s.users, user).Err? ==> r.outcome == ServerStops(Some(ClassCast)))
      && (Users.PublicKey(s.users, user).Ok? ==>
            var key := Users.PublicKey(s.users, user).value;
            r.outcome == Replied(StatusMsg.Encode(StatusMsg.Status(key.Some?,
                                                                   if key.Some? then key else Some("User not found.")))))
  {
    PubKeyRequestMsg.RoundTrip(PubKeyRequestMsg.PubKeyRequest(user));
  }

  /** Only the user store's create and the board's append change state: every turn
      leaves every existing record and every existing list prefix in place, and keeps
      the board well formed. */
  lemma ServeOnlyAdds(c: Users.Crypto, s: State, m: Object, env: Env)
    requires Board.WellFormed(s.posts)
    ensures var after := Serve(c, s, m, env).after;
      && Board.WellFormed(after.posts)
      && (forall u | u in s.users :: u in after.users && after.users[u] == s.users[u])
      && (forall u | u in s.posts :: u in after.posts && s.posts[u] <= after.posts[u])
  {
    var r := Serve(c, s, m, env);
    if r.after.posts != s.posts {
      var p := PostMsg.Decode(JObj(m)).value;
      var post := PostObjectMsg.SealedPost(p.user, p.message, p.wrappedkey, p.iv);
      Board.AppendAddsAtEnd(s.posts, post, post.user);
    }
  }

  /** Creating an account under a taken name is refused and changes nothing. */
  lemma CreateTakenNameRefused(c: Users.Crypto, s: State, m: Object, env: Env)
    requires HasType(m, CreateMsg.TYPE)
    requires CreateMsg.Decode(JObj(m)).Ok? && CreateMsg.Decode(JObj(m)).value.user in s.users
    ensures Serve(c, s, m, env) == Step(Replied(StatusReply(false, "User already exists.")), s)
  {
  }

  /** A successful creation answers with the new account's TOTP secret in Base64, and
      the account's public key is then served to anyone who asks. */
  lemma CreateThenPublicKey(c: Users.Crypto, s: State, msg: CreateMsg.Create, env: Env)
    requires msg.user !in s.users && c.scrypt(msg.pass, env.salt).Some? && env.usersSaved
    requires msg.pubkey.Some?
    ensures var r := Serve(c, s, CreateMsg.Encode(msg).fields, env);
      && r.outcome == Replied(StatusMsg.Encode(StatusMsg.Status(true, Some(c.base64Encode(env.totpKey)))))
      && Serve(c, r.after, PubKeyRequestMsg.Encode(PubKeyRequestMsg.PubKeyRequest(msg.user)).fields, env)
         == Step(Replied(StatusMsg.Encode(StatusMsg.Status(true, msg.pubkey))), r.after)
  {
    CreateMsg.RoundTrip(msg);
    PubKeyRequestMsg.RoundTrip(PubKeyRequestMsg.PubKeyRequest(msg.user));
  }

  /** A creation whose file save fails keeps the new record in memory yet answers
      "User already exists.", so a retry under that name is refused. */
  lemma CreateSaveFailureKeepsRecord(c: Users.Crypto, s: State, msg: CreateMsg.Create, env: Env)
    requires msg.user !in s.users && c.scrypt(msg.pass, env.salt).Some? && !env.usersSaved
    ensures var r := Serve(c, s, CreateMsg.Encode(msg).fields, env);
      && r.outcome == Replied(StatusReply(false, "User already exists."))
      && msg.user in r.after.users
      && Serve(c, r.after, CreateMsg.Encode(msg).fields, env)
         == Step(Replied(StatusReply(false, "User already exists.")), r.after)
  {
    CreateMsg.RoundTrip(msg);
  }

  /** A post to an unknown recipient is refused and the board is unchanged. */
  lemma PostToUnknownRefused(c: Users.Crypto, s: State, p: PostMsg.Post, env: Env)
    requires p.user !in s.users
    ensures Serve(c, s, PostMsg.Encode(p).fields, env)
            == Step(Replied(StatusReply(false, "Target user not found.")), s)
  {
    PostMsg.RoundTrip(p);
  }

  /** A post to a known recipient is kept even when the save fails, and the
      recipient's next GetMessage returns the earlier posts followed by it. */
  lemma PostThenGet(c: Users.Crypto, s: State, p: PostMsg.Post, env: Env)
    requires p.user in s.users && Board.WellFormed(s.posts)
    ensures var r := Serve(c, s, PostMsg.Encode(p).fields, env);
      var post := PostObjectMsg.SealedPost(p.user, p.message, p.wrappedkey, p.iv);
      && r.outcome == Replied(StatusReply(env.boardSaved,
                                          if env.boardSaved then "Message posted." else "Target user not found."))
      && Serve(c, r.after, GetMsg.Encode(GetMsg.Get(p.user)).fields, env)
         == Step(Replied(ResponseMsg.Encode(Board.Lookup(s.posts, p.user) + [post])), r.after)
  {
    PostMsg.RoundTrip(p);
    GetMsg.RoundTrip(GetMsg.Get(p.user));
    var post := PostObjectMsg.SealedPost(p.user, p.message, p.wrappedkey, p.iv);
    Board.AppendAddsAtEnd(s.posts, post, p.user);
  }

  /** GetMessage answers with exactly the recipient's posts, or a refusal when there
      are none. */
  lemma GetMessageReplies(c: Users.Crypto, s: State, user: Option<string>, env: Env)
    ensures Serve(c, s, GetMsg.Encode(GetMsg.Get(user)).fields, env)
            == if Board.Lookup(s.posts, user) == []
               then Step(Replied(StatusReply(false, "No such user or no messages.")), s)
               else Step(Replied(ResponseMsg.Encode(Board.Lookup(s.posts, user))), s)
  {
    GetMsg.RoundTrip(GetMsg.Get(user));
  }
}
