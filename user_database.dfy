/** The credential store: an in-memory map from username to the user's JSON record
    ("user", "pass", "salt", "totp-key", "pubkey"), with create, lookup and validation.
    scrypt, Base64 and HMAC-SHA1 are foreign library calls and are parameters (a
    `Crypto` value); the random salt and TOTP key, and whether rewriting the user file
    succeeded, are parameters of `CreateUser`. */
module Users {
  import opened Base
  import opened Json
  import Totp

  /** The foreign primitives the store relies on. `None` stands for the exception the
      call throws (an undecodable Base64 text, an scrypt call that fails). */
  datatype Crypto = Crypto(
    base64Encode: Bytes -> string,
    base64Decode: string -> Option<Bytes>,
    scrypt: (Option<string>, Bytes) -> Option<Bytes>,
    hmac: Totp.Hmac)

  /** The one law the store relies on: decoding what was encoded gives it back. */
  ghost predicate Lawful(c: Crypto) {
    forall b: Bytes :: c.base64Decode(c.base64Encode(b)) == Some(b)
  }

  /** 128 random bits. */
  type Salt = s: Bytes | |s| == 16 witness seq(16, _ => 0 as byte)

  /** 160 random bits. */
  type TotpSecret = s: Bytes | |s| == 20 witness seq(20, _ => 0 as byte)

  /** A username; Java's HashMap also admits null as a key. */
  type Name = Option<string>

  /** A user's record as stored: a JSON object. */
  type Record = Object

  /** `String.valueOf(record.get(k))`. A nested array or object is represented by its
      bracket pair only. */
  function ValueOf(rec: Record, k: string): string {
    if k !in rec then "null"
    else match rec[k]
      case JNull => "null"
      case JStr(s) => s
      case JBool(b) => if b then "true" else "false"
      case JNum(n) => if n < 0 then "-" + Totp.DecimalString(-n) else Totp.DecimalString(n)
      case JArr(_) => "[]"
      case JObj(_) => "{}"
  }

  /** The record `createUser` builds. */
  function NewRecord(c: Crypto, username: Name, hash: Bytes, salt: Salt, totpKey: TotpSecret,
                     pubkey: Option<string>): (r: Record)
    ensures GetStr(r, "user") == Ok(username) && GetStr(r, "pubkey") == Ok(pubkey)
    ensures GetStr(r, "totp-key") == Ok(Some(c.base64Encode(totpKey)))
    ensures Lawful(c) ==> c.base64Decode(ValueOf(r, "pass")) == Some(hash)
                          && c.base64Decode(ValueOf(r, "salt")) == Some(salt)
                          && c.base64Decode(ValueOf(r, "totp-key")) == Some(totpKey)
  {
    map["user" := OptStr(username),
        "pass" := JStr(c.base64Encode(hash)),
        "salt" := JStr(c.base64Encode(salt)),
        "totp-key" := JStr(c.base64Encode(totpKey)),
        "pubkey" := OptStr(pubkey)]
  }

  // ---------------------------------------------------------------------------
  // Lookups and validators over a users map

  /** `getPublicKey`: null for an unknown user; the cast of "pubkey" to String may fail
      on a record loaded from the file. */
  function PublicKey(users: map<Name, Record>, username: Name): (r: Result<Option<string>>)
    ensures username !in users ==> r == Ok(None)
    ensures r.Err? ==> r.fault == ClassCast
    ensures r.Ok? && r.value.Some? ==> username in users && "pubkey" in users[username]
                                       && users[username]["pubkey"] == JStr(r.value.value)
  {
    if username !in users then Ok(None) else GetStr(users[username], "pubkey")
  }

  /** `getTotpKey`: the Base64 text of the TOTP key, null for an unknown user. */
  function TotpKeyText(users: map<Name, Record>, username: Name): (r: Result<Option<string>>)
    ensures username !in users ==> r == Ok(None)
    ensures r.Err? ==> r.fault == ClassCast
    ensures r.Ok? && r.value.Some? ==> username in users && "totp-key" in users[username]
                                       && users[username]["totp-key"] == JStr(r.value.value)
  {
    if username !in users then Ok(None) else GetStr(users[username], "totp-key")
  }

  /** `validatePassword`: false for an unknown user; otherwise scrypt of the attempt
      under the decoded salt must equal the decoded stored hash. Any exception on the
      way (undecodable salt or hash, a failing scrypt) reads as false. */
  function PasswordValid(c: Crypto, users: map<Name, Record>, username: Name, attempt: Option<string>): (ok: bool)
    ensures ok ==> username in users
    ensures username in users ==>
              var salt := c.base64Decode(ValueOf(users[username], "salt"));
              (ok <==> salt.Some? && c.base64Decode(ValueOf(users[username], "pass")).Some?
                       && c.scrypt(attempt, salt.value) == c.base64Decode(ValueOf(users[username], "pass")))
  {
    if username !in users then false
    else
      var salt := c.base64Decode(ValueOf(users[username], "salt"));
      var stored := c.base64Decode(ValueOf(users[username], "pass"));
      if salt.None? || stored.None? then false
      else
        var computed := c.scrypt(attempt, salt.value);
        computed.Some? && computed.value == stored.value
  }

  /** `validateTOTP`: false for an unknown user; otherwise `isValidCode` on the decoded
      key. An undecodable key, an empty key (refused by the HMAC) or a null code read
      as false. */
  function TotpValid(c: Crypto, users: map<Name, Record>, username: Name, otp: Option<string>,
                     nowMillis: nat): (ok: bool)
    ensures ok ==> username in users && otp.Some? && Totp.WellFormed(Totp.StripWhitespace(otp.value))
  {
    if username !in users then false
    else match c.base64Decode(ValueOf(users[username], "totp-key"))
      case None => false
      case Some(key) =>
        |key| > 0 && otp.Some? && Totp.CodeAccepted(c.hmac, key, otp.value, nowMillis)
  }

  // ---------------------------------------------------------------------------
  // Loading: each entry of the file is keyed by its "user" field

  /** `(String) userObj.get("user")` of one entry of the file's "entries" list. A null
      entry passes the loop's cast to `Map` and then fails on `get`; any other
      non-object fails the cast. */
  function EntryKey(e: JsonValue): (r: Result<Name>)
    ensures e.JObj? ==> r == GetStr(e.fields, "user")
    ensures e == JNull ==> r == Err(NullPointer)
    ensures !e.JObj? && e != JNull ==> r == Err(ClassCast)
  {
    match e
    case JObj(o) => GetStr(o, "user")
    case JNull => Err(NullPointer)
    case _ => Err(ClassCast)
  }

  predicate Keyable(es: seq<JsonValue>) {
    forall i | 0 <= i < |es| :: EntryKey(es[i]).Ok?
  }

  /** The map after `users.put(user, entry)` for each entry in file order. */
  function Keyed(m: map<Name, Record>, es: seq<JsonValue>): map<Name, Record>
    requires Keyable(es)
  {
    if es == [] then m
    else
      var last := es[|es| - 1];
      Keyed(m, es[..|es| - 1])[EntryKey(last).value := last.fields]
  }

  /** The number of leading entries that can be keyed. */
  function KeyablePrefix(es: seq<JsonValue>): (k: nat)
    ensures k <= |es|
    ensures Keyable(es[..k])
    ensures k < |es| ==> EntryKey(es[k]).Err?
  {
    if es == [] then 0
    else if EntryKey(es[0]).Err? then 0
    else
      var k := KeyablePrefix(es[1..]);
      assert es[..k + 1] == [es[0]] + es[1..][..k];
      k + 1
  }

  /** Walking the entries up to the keyable prefix, the first one that cannot be keyed
      is the one just past it. */
  lemma FirstUnkeyable(es: seq<JsonValue>, i: nat)
    requires i <= KeyablePrefix(es) && i < |es|
    ensures EntryKey(es[i]).Err? <==> i == KeyablePrefix(es)
    ensures EntryKey(es[i]).Err? ==> !Keyable(es)
  {
    var k := KeyablePrefix(es);
    if i < k {
      assert es[..k][i] == es[i];
    }
  }

  /** An entry is stored under its name unless a later entry has the same name:
      a later duplicate overwrites an earlier one. */
  lemma {:induction false} LastEntryWins(m: map<Name, Record>, es: seq<JsonValue>, j: nat)
    requires Keyable(es)
    requires j < |es|
    requires forall i | j < i < |es| :: EntryKey(es[i]) != EntryKey(es[j])
    ensures EntryKey(es[j]).value in Keyed(m, es)
    ensures Keyed(m, es)[EntryKey(es[j]).value] == es[j].fields
  {
    if j < |es| - 1 {
      var init := es[..|es| - 1];
      assert forall i | j < i < |init| :: init[i] == es[i];
      LastEntryWins(m, init, j);
    }
  }

  /** A name no entry carries keeps what it had before loading. */
  lemma {:induction false} UnnamedKeepsOld(m: map<Name, Record>, es: seq<JsonValue>, k: Name)
    requires Keyable(es)
    requires forall i | 0 <= i < |es| :: EntryKey(es[i]) != Ok(k)
    ensures k in Keyed(m, es) <==> k in m
    ensures k in m ==> Keyed(m, es)[k] == m[k]
  {
    if es != [] {
      UnnamedKeepsOld(m, es[..|es| - 1], k);
    }
  }

  // ---------------------------------------------------------------------------
  // The store

  class UserDatabase {
    var users: map<Name, Record>

    /** A fresh store: a missing file is created holding no entries. */
    constructor ()
      ensures users == map[]
    {
      users := map[];
    }

    /** The `loadUsers` loop over the file's entries. A null entry throws
        NullPointerException, and any other non-object entry or a "user" that is not a
        string throws ClassCastException, mid-way, leaving the entries before it loaded. */
    method LoadUsers(entries: seq<JsonValue>) returns (r: Result<()>)
      modifies this
      ensures r.Ok? <==> Keyable(entries)
      ensures r.Err? ==> KeyablePrefix(entries) < |entries|
                         && r == Err(EntryKey(entries[KeyablePrefix(entries)]).fault)
      ensures users == Keyed(old(users), entries[..KeyablePrefix(entries)])
    {
      var n := KeyablePrefix(entries);
      var i := 0;
      while i < |entries|
        invariant i <= n
        invariant users == Keyed(old(users), entries[..i])
      {
        var key := EntryKey(entries[i]);
        FirstUnkeyable(entries, i);
        if key.Err? {
          return Err(key.fault);
        }
        assert entries[..i + 1][..i] == entries[..i];
        users := users[key.value := entries[i].fields];
        i := i + 1;
      }
      assert entries[..|entries|] == entries;
      return Ok(());
    }

    /** `userExists`: an unknown name has no key and no TOTP secret. */
    function UserExists(username: Name): (r: bool)
      reads this
      ensures !r ==> GetPublicKey(username) == Ok(None) && GetTotpKey(username) == Ok(None)
    {
      username in users
    }

    /** `createUser`. An existing name, or an scrypt call that throws, changes nothing
        and returns false. Otherwise the new record is put in the map BEFORE the file is
        rewritten, so a failed save (`saved == false`) returns false with the record
        kept in memory. Only the key `username` changes. */
    method CreateUser(c: Crypto, username: Name, password: Option<string>, pubkey: Option<string>,
                      salt: Salt, totpKey: TotpSecret, saved: bool) returns (created: bool)
      modifies this
      ensures username in old(users) ==> !created && users == old(users)
      ensures username !in old(users) && c.scrypt(password, salt).None? ==>
        !created && users == old(users)
      ensures username !in old(users) && c.scrypt(password, salt).Some? ==>
        created == saved &&
        users == old(users)[username := NewRecord(c, username, c.scrypt(password, salt).value,
                                                  salt, totpKey, pubkey)]
      ensures forall k | k != username :: (k in users <==> k in old(users))
      ensures forall k | k != username && k in users :: users[k] == old(users)[k]
    {
      if username in users {
        return false;
      }
      var hashed := c.scrypt(password, salt);
      if hashed.None? {
        return false;
      }
      users := users[username := NewRecord(c, username, hashed.value, salt, totpKey, pubkey)];
      created := saved;
    }

    /** `getPublicKey`: null for an unknown name; a key is only ever found for a
        known one. */
    function GetPublicKey(username: Name): (r: Result<Option<string>>)
      reads this
      ensures username !in users ==> r == Ok(None)
      ensures r.Ok? && r.value.Some? ==> username in users && "pubkey" in users[username] && users[username]["pubkey"] == JStr(r.value.value)
    {
      PublicKey(users, username)
    }

    /** `getTotpKey`: null for an unknown name. */
    function GetTotpKey(username: Name): (r: Result<Option<string>>)
      reads this
      ensures username !in users ==> r == Ok(None)
      ensures r.Ok? && r.value.Some? ==> username in users && "totp-key" in users[username] && users[username]["totp-key"] == JStr(r.value.value)
    {
      TotpKeyText(users, username)
    }

    /** `validatePassword`: never true for an unknown name. */
    function ValidatePassword(c: Crypto, username: Name, attempt: Option<string>): (ok: bool)
      reads this
      ensures username !in users ==> !ok
    {
      PasswordValid(c, users, username, attempt)
    }

    /** `validateTOTP`: looks the key up, computes the current code (logged only; it
        throws on an empty key), then asks `isValidCode`. */
    method ValidateTotp(c: Crypto, username: Name, otpCode: Option<string>, nowMillis: nat)
      returns (ok: bool)
      ensures ok == TotpValid(c, users, username, otpCode, nowMillis)
      ensures username !in users ==> !ok
    {
      if username !in users {
        return false;
      }
      var key := c.base64Decode(ValueOf(users[username], "totp-key"));
      if key.None? {
        return false;
      }
      var expected := Totp.GetCurrentCode(c.hmac, key.value, nowMillis);
      if expected.None? {
        return false;
      }
      if otpCode.None? {
        return false;  // replaceAll on null throws; the exception is caught
      }
      ok := Totp.IsValidCode(c.hmac, key.value, otpCode.value, nowMillis);
    }
  }

  // ---------------------------------------------------------------------------
  // What a successful creation guarantees

  /** After a successful `createUser(u, p, k)`: u exists, its public key is k, its
      stored salt and TOTP key decode to 16 and 20 bytes, and its stored "pass" decodes
      to scrypt(p, salt). */
  lemma CreatedRecordShape(c: Crypto, users: map<Name, Record>, username: Name, hash: Bytes,
                           salt: Salt, totpKey: TotpSecret, pubkey: Option<string>)
    requires Lawful(c)
    ensures var after := users[username := NewRecord(c, username, hash, salt, totpKey, pubkey)];
      && username in after
      && PublicKey(after, username) == Ok(pubkey)
      && TotpKeyText(after, username) == Ok(Some(c.base64Encode(totpKey)))
      && c.base64Decode(ValueOf(after[username], "salt")) == Some(salt)
      && c.base64Decode(ValueOf(after[username], "totp-key")) == Some(totpKey)
      && c.base64Decode(ValueOf(after[username], "pass")) == Some(hash)
  {
    var rec := NewRecord(c, username, hash, salt, totpKey, pubkey);
    assert c.base64Decode(c.base64Encode(salt)) == Some(salt);
    assert c.base64Decode(c.base64Encode(totpKey)) == Some(totpKey);
    assert c.base64Decode(c.base64Encode(hash)) == Some(hash);
  }

  /** Creating a user with password p and then validating p succeeds. */
  lemma CreatedPasswordValidates(c: Crypto, users: map<Name, Record>, username: Name, password: Option<string>,
                                 salt: Salt, totpKey: TotpSecret, pubkey: Option<string>)
    requires Lawful(c)
    requires c.scrypt(password, salt).Some?
    ensures PasswordValid(c, users[username := NewRecord(c, username, c.scrypt(password, salt).value,
                                                         salt, totpKey, pubkey)], username, password)
  {
    CreatedRecordShape(c, users, username, c.scrypt(password, salt).value, salt, totpKey, pubkey);
  }

  /** After creation, the code of the current step, or of the step either side of it,
      computed from the secret the store handed out, passes `validateTOTP`. */
  lemma CreatedTotpValidates(c: Crypto, users: map<Name, Record>, username: Name, hash: Bytes,
                             salt: Salt, totpKey: TotpSecret, pubkey: Option<string>,
                             nowMillis: nat, d: int)
    requires Lawful(c)
    requires -Totp.TIME_SKEW <= d <= Totp.TIME_SKEW
    ensures TotpValid(c, users[username := NewRecord(c, username, hash, salt, totpKey, pubkey)], username,
                      Some(Totp.TotpCode(c.hmac, totpKey, Totp.TimeStep(nowMillis) + d, Totp.DIGITS)),
                      nowMillis)
  {
    CreatedRecordShape(c, users, username, hash, salt, totpKey, pubkey);
    Totp.AdjacentCodeAccepted(c.hmac, totpKey, nowMillis, d);
  }
}
