/** The client's session: the account name it acts as, the TOTP secret it was handed
    and its private key. Each operation sends one request and reads one reply. The
    connection itself is not modelled: the server's reply is a parameter (`None` when
    the server closes the connection without answering), and the messages sent are
    returned. ElGamal/AES encryption and JSON text parsing are parameters too. */
module ClientSession {
  import opened Base
  import opened Json
  import CreateMsg
  import AuthenticateMsg
  import PubKeyRequestMsg
  import PostMsg
  import GetMsg
  import StatusMsg
  import ResponseMsg
  import PostObjectMsg
  import Service
  import Users

  type SealedPost = PostObjectMsg.SealedPost

  const NOT_AUTHENTICATED := "Must be authenticated first"
  const PLACEHOLDER := "[Encrypted message - cannot decrypt]"

  /** An encrypted message: AES ciphertext, the AES key wrapped for the recipient, and
      the iv, all as Base64 text. */
  datatype Sealed = Sealed(ciphertext: string, wrappedKey: string, iv: string)

  /** The foreign calls the client makes. `None`, or the `Err` fault of `encrypt`, stands
      for the exception they throw. */
  datatype Tools = Tools(
    encrypt: (string, Option<string>) -> Result<Sealed>,
    decrypt: (Option<string>, Option<string>, Option<string>, Option<string>) -> Option<string>,
    readArray: Option<string> -> Option<seq<JsonValue>>)

  /** `response.deserialize(socket.receiveMessage())`. */
  function ReadStatus(reply: Option<JsonValue>): (r: Result<StatusMsg.Status>)
    ensures reply.None? ==> r == Err(ConnectionClosed)
    ensures reply.Some? ==> r == StatusMsg.Decode(reply.value)
  {
    if reply.None? then Err(ConnectionClosed) else StatusMsg.Decode(reply.value)
  }

  /** What `getPublicKey` makes of the server's reply once the request is sent: the
      payload on a true status, an exception carrying the payload on a false one. */
  function KeyAnswer(reply: Option<JsonValue>): (r: Result<Option<string>>)
    ensures r.Ok? <==> ReadStatus(reply).Ok? && ReadStatus(reply).value.status
    ensures r.Ok? ==> r.value == ReadStatus(reply).value.payload
    ensures ReadStatus(reply).Err? ==> r == Err(ReadStatus(reply).fault)
    ensures ReadStatus(reply).Ok? && !ReadStatus(reply).value.status ==>
              r == Err(Failed("Public key request failed: " + Text(ReadStatus(reply).value.payload)))
  {
    match ReadStatus(reply)
    case Err(f) => Err(f)
    case Ok(st) =>
      if st.status then Ok(st.payload)
      else Err(Failed("Public key request failed: " + Text(st.payload)))
  }

  /** The Post request carrying a sealed message for `recipient`. */
  function PostRequest(recipient: Option<string>, sealed: Sealed): (j: JsonValue)
    ensures PostMsg.Decode(j) == Ok(PostMsg.Post(recipient, Some(sealed.ciphertext),
                                                 Some(sealed.wrappedKey), Some(sealed.iv)))
  {
    PostMsg.RoundTrip(PostMsg.Post(recipient, Some(sealed.ciphertext), Some(sealed.wrappedKey), Some(sealed.iv)));
    PostMsg.Encode(PostMsg.Post(recipient, Some(sealed.ciphertext), Some(sealed.wrappedKey), Some(sealed.iv)))
  }

  /** A nullable string concatenated into a message: null prints as "null". */
  function Text(s: Option<string>): string {
    if s.Some? then s.value else "null"
  }

  /** `parsePostObjects` on the array `readArray` produced: every element must
      deserialize as a stored post, or the whole result is empty. The decoded prefix
      is the whole array exactly when every element deserializes. */
  function ParsedPosts(items: Option<seq<JsonValue>>): (ps: seq<SealedPost>)
    ensures items.None? ==> ps == []
  {
    if items.None? then []
    else
      var decoded := ResponseMsg.DecodedPrefix(items.value);
      if |decoded| == |items.value| then decoded else []
  }

  /** What `decryptPosts` shows for one post: the plaintext, or the placeholder when
      decryption throws. */
  function Shown(t: Tools, post: SealedPost, privateKey: Option<string>): string {
    match t.decrypt(post.message, post.wrappedkey, post.iv, privateKey)
    case Some(m) => m
    case None => PLACEHOLDER
  }

  /** The loop of `parsePostObjects`. Any failure is caught and yields an empty list. */
  method ParsePostObjects(items: Option<seq<JsonValue>>) returns (posts: seq<SealedPost>)
    ensures items.None? ==> posts == []
    ensures items.Some? && (forall i | 0 <= i < |items.value| :: PostObjectMsg.Decode(items.value[i]).Ok?) ==>
              |posts| == |items.value|
              && forall i | 0 <= i < |items.value| :: PostObjectMsg.Decode(items.value[i]) == Ok(posts[i])
    ensures items.Some? && (exists i | 0 <= i < |items.value| :: PostObjectMsg.Decode(items.value[i]).Err?) ==>
              posts == []
  {
    if items.None? {
      return [];
    }
    var postsArray := items.value;
    var parsed: seq<SealedPost> := [];
    for i := 0 to |postsArray|
      invariant |parsed| == i
      invariant forall k | 0 <= k < i :: PostObjectMsg.Decode(postsArray[k]) == Ok(parsed[k])
    {
      var post := new PostObjectMsg.PostObject.Empty();
      var thrown := post.Deserialize(postsArray[i]);
      if thrown.Some? {
        return [];
      }
      parsed := parsed + [post.Value()];
    }
    return parsed;
  }

  /** The loop of `decryptPosts`: one line per post, in order. */
  method DecryptPosts(t: Tools, posts: seq<SealedPost>, privateKey: Option<string>)
    returns (messages: seq<string>)
    ensures |messages| == |posts|
    ensures forall i | 0 <= i < |posts| :: messages[i] == Shown(t, posts[i], privateKey)
  {
    messages := [];
    for i := 0 to |posts|
      invariant |messages| == i
      invariant forall k | 0 <= k < i :: messages[k] == Shown(t, posts[k], privateKey)
    {
      var decrypted := t.decrypt(posts[i].message, posts[i].wrappedkey, posts[i].iv, privateKey);
      if decrypted.Some? {
        messages := messages + [decrypted.value];
      } else {
        messages := messages + [PLACEHOLDER];
      }
    }
  }

  class Client {
    var username: Option<string>
    var totpKey: Option<string>
    var privateKey: Option<string>

    /** A new client holds no session. */
    constructor ()
      ensures username == None && totpKey == None && privateKey == None
    {
      username, totpKey, privateKey := None, None, None;
    }

    /** `createAccount`: the new private key is kept before anything is sent; on a true
        status the client takes the name and the returned TOTP secret. */
    method CreateAccount(user: Option<string>, password: Option<string>, keyPair: (string, string),
                         reply: Option<JsonValue>) returns (sent: JsonValue, r: Result<Option<string>>)
      modifies this
      ensures privateKey == Some(keyPair.1)
      ensures sent == CreateMsg.Encode(CreateMsg.Create(user, password, Some(keyPair.0)))
      ensures ReadStatus(reply).Err? ==> r == Err(ReadStatus(reply).fault)
      ensures ReadStatus(reply).Ok? && !ReadStatus(reply).value.status ==>
                r == Err(Failed("Account creation failed: " + Text(ReadStatus(reply).value.payload)))
      ensures r.Ok? <==> ReadStatus(reply).Ok? && ReadStatus(reply).value.status
      ensures r.Ok? ==> r.value == ReadStatus(reply).value.payload
                        && username == user && totpKey == r.value
      ensures r.Err? ==> username == old(username) && totpKey == old(totpKey)
    {
      privateKey := Some(keyPair.1);
      sent := CreateMsg.Encode(CreateMsg.Create(user, password, Some(keyPair.0)));
      var response := new StatusMsg.StatusMessage.Empty();
      var thrown := ReceiveInto(response, reply);
      if thrown.Some? {
        return sent, Err(thrown.value);
      }
      if !response.status {
        return sent, Err(Failed("Account creation failed: " + Text(response.payload)));
      }
      username := user;
      totpKey := response.payload;
      r := Ok(totpKey);
    }

    /** `authenticate`: the client takes the name only on a true status. */
    method Authenticate(user: Option<string>, password: Option<string>, otpCode: Option<string>,
                        reply: Option<JsonValue>) returns (sent: JsonValue, r: Result<bool>)
      modifies this
      ensures sent == AuthenticateMsg.Encode(AuthenticateMsg.Authenticate(user, password, otpCode))
      ensures ReadStatus(reply).Err? ==> r == Err(ReadStatus(reply).fault)
      ensures ReadStatus(reply).Ok? ==> r == Ok(ReadStatus(reply).value.status)
      ensures username == (if r == Ok(true) then user else old(username))
      ensures totpKey == old(totpKey) && privateKey == old(privateKey)
    {
      sent := AuthenticateMsg.Encode(AuthenticateMsg.Authenticate(user, password, otpCode));
      var response := new StatusMsg.StatusMessage.Empty();
      var thrown := ReceiveInto(response, reply);
      if thrown.Some? {
        return sent, Err(thrown.value);
      }
      if response.status {
        username := user;
        return sent, Ok(true);
      }
      return sent, Ok(false);
    }

    /** `getPublicKey`: refused before connecting when no name is held; a false status
        becomes an exception carrying the payload. */
    method GetPublicKey(targetUser: Option<string>, reply: Option<JsonValue>)
      returns (sent: Option<JsonValue>, r: Result<Option<string>>)
      ensures username.None? ==> sent.None? && r == Err(IllegalState(NOT_AUTHENTICATED))
      ensures username.Some? ==>
                sent == Some(PubKeyRequestMsg.Encode(PubKeyRequestMsg.PubKeyRequest(targetUser)))
                && r == KeyAnswer(reply)
    {
      if username.None? {
        return None, Err(IllegalState(NOT_AUTHENTICATED));
      }
      sent := Some(PubKeyRequestMsg.Encode(PubKeyRequestMsg.PubKeyRequest(targetUser)));
      var response := new StatusMsg.StatusMessage.Empty();
      var thrown := ReceiveInto(response, reply);
      if thrown.Some? {
        return sent, Err(thrown.value);
      }
      if !response.status {
        return sent, Err(Failed("Public key request failed: " + Text(response.payload)));
      }
      r := Ok(response.payload);
    }

    /** `postMessage`: fetch the recipient's key, encrypt, send the post and return the
        reply's status. Every failure on the way is thrown to the caller; once the key
        lookup and the encryption succeed, the post is always sent. */
    method PostMessage(t: Tools, recipient: Option<string>, message: string,
                       keyReply: Option<JsonValue>, postReply: Option<JsonValue>)
      returns (sent: seq<JsonValue>, r: Result<bool>)
      ensures username.None? ==> sent == [] && r == Err(IllegalState(NOT_AUTHENTICATED))
      ensures username.Some? && KeyAnswer(keyReply).Err? ==>
                sent == [PubKeyRequestMsg.Encode(PubKeyRequestMsg.PubKeyRequest(recipient))]
                && r == Err(KeyAnswer(keyReply).fault)
      ensures username.Some? && KeyAnswer(keyReply).Ok? && t.encrypt(message, KeyAnswer(keyReply).value).Err? ==>
                sent == [PubKeyRequestMsg.Encode(PubKeyRequestMsg.PubKeyRequest(recipient))]
                && r == Err(t.encrypt(message, KeyAnswer(keyReply).value).fault)
      ensures username.Some? && KeyAnswer(keyReply).Ok? && t.encrypt(message, KeyAnswer(keyReply).value).Ok? ==>
                sent == [PubKeyRequestMsg.Encode(PubKeyRequestMsg.PubKeyRequest(recipient)),
                         PostRequest(recipient, t.encrypt(message, KeyAnswer(keyReply).value).value)]
                && (ReadStatus(postReply).Ok? ==> r == Ok(ReadStatus(postReply).value.status))
                && (ReadStatus(postReply).Err? ==> r == Err(ReadStatus(postReply).fault))
      ensures r.Ok? ==> username.Some? && ReadStatus(keyReply).Ok? && ReadStatus(keyReply).value.status
                        && t.encrypt(message, ReadStatus(keyReply).value.payload).Ok?
                        && ReadStatus(postReply).Ok? && r.value == ReadStatus(postReply).value.status
    {
      if username.None? {
        return [], Err(IllegalState(NOT_AUTHENTICATED));
      }
      var keySent, key := GetPublicKey(recipient, keyReply);
      sent := [keySent.value];
      if key.Err? {
        return sent, Err(key.fault);
      }
      var encrypted := t.encrypt(message, key.value);
      if encrypted.Err? {
        return sent, Err(encrypted.fault);
      }
      sent := sent + [PostRequest(recipient, encrypted.value)];
      var response := new StatusMsg.StatusMessage.Empty();
      var thrown := ReceiveInto(response, postReply);
      if thrown.Some? {
        return sent, Err(thrown.value);
      }
      r := Ok(response.status);
    }

    /** `getMessages`: the reply is read as a StatusMessage whose payload is the JSON
        text of the posts; those are parsed and decrypted with the client's key. */
    method GetMessages(t: Tools, reply: Option<JsonValue>)
      returns (sent: Option<JsonValue>, r: Result<seq<string>>)
      ensures username.None? ==> sent.None? && r == Err(IllegalState(NOT_AUTHENTICATED))
      ensures username.Some? ==> sent == Some(GetMsg.Encode(GetMsg.Get(username)))
      ensures username.Some? && ReadStatus(reply).Err? ==> r == Err(ReadStatus(reply).fault)
      ensures username.Some? && ReadStatus(reply).Ok? && !ReadStatus(reply).value.status ==>
                r == Err(Failed("Message retrieval failed: " + Text(ReadStatus(reply).value.payload)))
      ensures username.Some? && ReadStatus(reply).Ok? && ReadStatus(reply).value.status ==>
                var posts := ParsedPosts(t.readArray(ReadStatus(reply).value.payload));
                && r.Ok?
                && |r.value| == |posts|
                && forall i | 0 <= i < |posts| :: r.value[i] == Shown(t, posts[i], privateKey)
    {
      if username.None? {
        return None, Err(IllegalState(NOT_AUTHENTICATED));
      }
      sent := Some(GetMsg.Encode(GetMsg.Get(username)));
      var response := new StatusMsg.StatusMessage.Empty();
      var thrown := ReceiveInto(response, reply);
      if thrown.Some? {
        return sent, Err(thrown.value);
      }
      if !response.status {
        return sent, Err(Failed("Message retrieval failed: " + Text(response.payload)));
      }
      var items := t.readArray(response.payload);
      var posts := ParsePostObjects(items);
      ParsedPostsAgrees(items);
      var messages := DecryptPosts(t, posts, privateKey);
      r := Ok(messages);
    }

    function GetTotpKey(): Option<string>
      reads this
    {
      totpKey
    }

    function GetUsername(): Option<string>
      reads this
    {
      username
    }
  }

  /** `response.deserialize(socket.receiveMessage())` on a fresh StatusMessage. */
  method ReceiveInto(response: StatusMsg.StatusMessage, reply: Option<JsonValue>) returns (thrown: Option<Fault>)
    modifies response
    ensures thrown.None? <==> ReadStatus(reply).Ok?
    ensures thrown.Some? ==> ReadStatus(reply) == Err(thrown.value)
    ensures thrown.None? ==> response.Value() == ReadStatus(reply).value
  {
    if reply.None? {
      return Some(ConnectionClosed);
    }
    thrown := response.Deserialize(reply.value);
  }

  /** The function and the loop of `parsePostObjects` agree. */
  lemma ParsedPostsAgrees(items: Option<seq<JsonValue>>)
    ensures items.Some? && (forall i | 0 <= i < |items.value| :: PostObjectMsg.Decode(items.value[i]).Ok?) ==>
              |ParsedPosts(items)| == |items.value|
              && forall i | 0 <= i < |items.value| :: PostObjectMsg.Decode(items.value[i]) == Ok(ParsedPosts(items)[i])
    ensures items.Some? && (exists i | 0 <= i < |items.value| :: PostObjectMsg.Decode(items.value[i]).Err?) ==>
              ParsedPosts(items) == []
  {
    if items.Some? {
      var pre := ResponseMsg.DecodedPrefix(items.value);
      if |pre| < |items.value| {
        assert PostObjectMsg.Decode(items.value[|pre|]).Err?;
      }
    }
  }

  /** Parsing the array the server's ResponseMessage carries gives back its posts. */
  lemma ParseServerPosts(posts: seq<SealedPost>)
    ensures ParsedPosts(Some(ResponseMsg.EncodePosts(posts))) == posts
  {
    ResponseMsg.DecodeEncodedPosts(posts);
  }

  // ------------------------------------------------ the client against the server

  /** The reply a client reads after the server's turn: the reply sent, or nothing when
      the server stays silent or stops. */
  function Delivered(o: Service.Outcome): (reply: Option<JsonValue>)
    ensures reply.Some? <==> o.Replied?
    ensures o.Replied? ==> reply.value == o.reply
  {
    if o.Replied? then Some(o.reply) else None
  }

  /** The client's login request is never answered: the server's switch expects
      "Authenticate" while the client's message is tagged "authenticate". So
      `authenticate` never succeeds, whatever the credentials. */
  lemma LoginNeverAnswered(c: Users.Crypto, s: Service.State, env: Service.Env,
                           user: Option<string>, password: Option<string>, otpCode: Option<string>)
    ensures Service.Serve(c, s, AuthenticateMsg.Encode(AuthenticateMsg.Authenticate(user, password, otpCode)).fields, env)
            == Service.Step(Service.Silent, s)
    ensures ReadStatus(Delivered(Service.Serve(c, s, AuthenticateMsg.Encode(
              AuthenticateMsg.Authenticate(user, password, otpCode)).fields, env).outcome))
            == Err(ConnectionClosed)
  {
    Service.ClientLoginIgnored(c, s, AuthenticateMsg.Authenticate(user, password, otpCode), env);
  }

  /** `getMessages` never returns messages from this server: an empty mailbox is
      answered with a false status, and a non-empty one with a ResponseMessage, whose
      "GetResponseMessage" tag StatusMessage refuses. */
  lemma MailboxNeverRead(c: Users.Crypto, s: Service.State, env: Service.Env, user: Option<string>)
    ensures var step := Service.Serve(c, s, GetMsg.Encode(GetMsg.Get(user)).fields, env);
      && step.outcome.Replied?
      && (ReadStatus(Some(step.outcome.reply)).Err? || !ReadStatus(Some(step.outcome.reply)).value.status)
  {
    Service.GetMessageReplies(c, s, user, env);
  }

  /** The public-key lookup the client makes before posting succeeds for a registered
      user whose key is on file, and returns that key. */
  lemma KeyLookupAnswered(c: Users.Crypto, s: Service.State, env: Service.Env, target: Option<string>,
                          key: string)
    requires target in s.users && GetStr(s.users[target], "pubkey") == Ok(Some(key))
    ensures var step := Service.Serve(c, s, PubKeyRequestMsg.Encode(PubKeyRequestMsg.PubKeyRequest(target)).fields, env);
      && step.outcome.Replied?
      && ReadStatus(Some(step.outcome.reply)) == Ok(StatusMsg.Status(true, Some(key)))
  {
    PubKeyRequestMsg.RoundTrip(PubKeyRequestMsg.PubKeyRequest(target));
    StatusMsg.RoundTrip(StatusMsg.Status(true, Some(key)));
  }
}
