# Secure bulletin board — a Dafny model

The bulletin board is a client/server system for end-to-end encrypted mail drops. A
client opens an account by sending a username, a password and an ElGamal public key.
The server stores the password as an scrypt hash and answers with a fresh TOTP secret.
A client that knows a recipient's public key seals a message for them: AES ciphertext,
an ElGamal-wrapped AES key and an iv. The server files the sealed post under the
recipient's name and hands a user's posts back on request. Every request and reply is
one JSON object with a "type" tag.

This project models the core of that system:

| file | module | models |
|---|---|---|
| `base.dfy` | `Base` | bytes, `Option`, `Result`, and Java's exceptions as `Fault` values |
| `json.dfy` | `Json` | JSON values; `(String) obj.get(k)` as `GetStr` |
| `totp.dfy` | `Totp` | `TotpVerifier`: HMAC truncation (RFC 4226 section 5.3), 30-second steps, a window of one step either side (RFC 6238 sections 4 and 5.2) |
| `user_database.dfy` | `Users` | `UserDatabase`: loading the user file, creating accounts, key lookups, password and TOTP validation |
| `bulletin_board.dfy` | `Board` | `BulletinBoard`: the recipient-to-posts map, loading it from the board file and the image it saves |
| `dispatcher.dfy` | `Service` | one turn of the server's accept loop: the `type` read and the `switch` of `BulletinBoardService` |
| `create_message.dfy` … `get_message.dfy`, `status_message.dfy`, `response_message.dfy`, `post_object.dfy` | `CreateMsg`, `AuthenticateMsg`, `PostMsg`, `PubKeyRequestMsg`, `GetMsg`, `StatusMsg`, `ResponseMsg`, `PostObjectMsg` | the wire-message classes |
| `message.dfy`, `post_family.dfy` | `BaseMessage`, `PostFamily` | the `Message` base class and the classes of `Post.java` |
| `client.dfy` | `ClientSession` | `Client`: the session rules and the five client operations |

The model follows a few conventions throughout:

- Each message class has a value form: a datatype with `Encode` (`toJSONType`) and `Decode` (`deserialize`). A round-trip lemma connects the two. Each class's `Deserialize` method is proved against `Decode`, including which exception it throws and which fields it leaves untouched.
- A thrown exception is a `Fault`:
  - `InvalidObject` and `ConnectionClosed` are the IOExceptions, which the server loop catches.
  - `ClassCast` and `NullPointer` escape the loop and stop the server.
- The dispatcher is specified by a pure function, `Service.Serve`, from a state (users and posts), a request and the environment to a `Step`. A step is the outcome (a reply, no reply, or the server stopping) and the new state. The `Dispatch` method, which runs against the live `UserDatabase` and `BulletinBoard` objects, is proved equal to `Serve`. The lemmas about whole request sequences are stated on `Serve`.
- Foreign calls are parameters, and so is everything outside the program:
  - the foreign calls are scrypt, Base64, HMAC-SHA1, ElGamal/AES and JSON text parsing;
  - outside the program are the clock, the random salt and TOTP secret, whether a file write succeeds, the board file's contents, and the server's reply as seen by the client.

Two tag mismatches in the source decide what the system actually does. The lemmas state both as properties of the model as written:

- **Login is never answered.** `AuthenticateMessage` is tagged "authenticate", but the server's switch expects "Authenticate". The client's login request therefore matches no case, and the server closes the connection without replying. A request tagged "Authenticate" reaches the case, but `deserialize` then rejects it. See `Service.AuthenticateNeverAnswered`, `Service.ClientLoginIgnored` and `ClientSession.LoginNeverAnswered`.
- **Messages are never read.** A non-empty mailbox is answered with a `ResponseMessage` tagged "GetResponseMessage". The client reads every reply as a `StatusMessage`, and that rejects this tag. An empty mailbox gets a false status. See `ClientSession.MailboxNeverRead`.

Where the server's reply strings differ from what happened, the model keeps the strings. For example, a failed board save answers "Target user not found.", and a failed user-file save answers "User already exists." while the new record stays in memory.

## Model

| member | source | states |
|---|---|---|
| Totp.LongBytes | src/util/TotpVerifier.java:48 | the time step is encoded as exactly 8 bytes (64-bit two's complement, most significant first) |
| Totp.Offset | src/util/TotpVerifier.java:56 | the dynamic-truncation offset is at most 15, so the four bytes read from it lie inside the 20-byte HMAC |
| Totp.Truncate | src/util/TotpVerifier.java:57 | the truncated value has its top bit masked, so it is below 2^31 |
| Totp.Modulus | src/util/TotpVerifier.java:59 | `(int) Math.pow(10, digits)` is at least 1, at most 10^digits, and never above Integer.MAX_VALUE |
| Totp.TotpCode | src/util/TotpVerifier.java:47-66 | the code `generateTOTP` returns for a non-empty key; its width and value are stated by `Totp.TotpCodeShape` |
| Totp.TotpCodeShape | src/util/TotpVerifier.java:59-65 | a code of width d ≥ 1 is exactly d decimal digits, and its value is the truncated HMAC modulo the modulus |
| Totp.GenerateTotp | src/util/TotpVerifier.java:47-66 | the zero-padding loop yields the code of the key, step and width; an empty key (refused by `SecretKeySpec`) yields no code |
| Totp.StripWhitespace | src/util/TotpVerifier.java:16 | removing whitespace leaves no whitespace and never lengthens the text |
| Totp.StripDigitsIsIdentity | src/util/TotpVerifier.java:16 | a string of digits is unchanged by whitespace removal |
| Totp.IsValidCode | src/util/TotpVerifier.java:15-37 | the result is true exactly when the stripped input is six digits and equals the code of the previous, current or next step; a malformed input is refused |
| Totp.AcceptedIffInWindow | src/util/TotpVerifier.java:24-31 | acceptance is spelled out as equality with one of the three window codes, in both directions |
| Totp.AdjacentCodeAccepted | src/util/TotpVerifier.java:26-30 | a code generated for the current step or an adjacent one is accepted |
| Totp.GetCurrentCode | src/util/TotpVerifier.java:75-79 | the current code exists exactly for a non-empty key, is the code of the current step, and is accepted by `isValidCode` at the same instant |
| Users.KeyablePrefix | src/server/UserDatabase.java:52-55 | counts the entries loaded before the first entry that cannot be keyed (a null or non-object entry, or a "user" that cannot be cast) |
| Users.LastEntryWins | src/server/UserDatabase.java:52-55 | after loading, a name maps to the last entry carrying it |
| Users.UnnamedKeepsOld | src/server/UserDatabase.java:52-55 | loading leaves untouched every name no entry carries |
| Users.NewRecord | src/server/UserDatabase.java:97-102 | the record reads back its name, public key and Base64 TOTP key as strings; under a lawful Base64, its "pass", "salt" and "totp-key" decode to the hash, salt and key given |
| Users.PublicKey | src/server/UserDatabase.java:117-120 | an unknown name gives null; the only failure is the cast of a non-string "pubkey"; a key is returned only for a known name whose "pubkey" is that string |
| Users.TotpKeyText | src/server/UserDatabase.java:179-182 | an unknown name gives null; the only failure is the cast of a non-string "totp-key"; a key is returned only for a known name whose "totp-key" is that string |
| Users.PasswordValid | src/server/UserDatabase.java:125-151 | only a known name validates, and it does exactly when its salt and hash decode and scrypt of the attempt under that salt equals the stored hash |
| Users.TotpValid | src/server/UserDatabase.java:157-173 | only a known name with a non-null code validates, and the code is then six digits once whitespace is removed |
| Users.UserDatabase.constructor | src/server/UserDatabase.java:29-44 | a store whose file is missing starts empty |
| Users.EntryKey | src/server/UserDatabase.java:52-53 | an object entry is keyed by its "user" cast; a null entry fails with NullPointerException and any other non-object with ClassCastException |
| Users.UserDatabase.LoadUsers | src/server/UserDatabase.java:38-56 | the map gains the entries in file order up to the first one that throws, the load succeeds exactly when every entry can be keyed, and a failed load throws the first failing entry's fault |
| Users.UserDatabase.UserExists | src/server/UserDatabase.java:77-79 | an unknown name has neither a public key nor a TOTP key |
| Users.UserDatabase.CreateUser | src/server/UserDatabase.java:84-112 | a taken name or a failing scrypt changes nothing and returns false; otherwise the record is stored under the name before the save, the result is the save's outcome, and no other name changes |
| Users.UserDatabase.GetPublicKey | src/server/UserDatabase.java:117-120 | an unknown name gives null; a key is returned only for a known name, and it is the stored "pubkey" string |
| Users.UserDatabase.GetTotpKey | src/server/UserDatabase.java:179-182 | an unknown name gives null; a key is returned only for a known name, and it is the stored "totp-key" string |
| Users.UserDatabase.ValidatePassword | src/server/UserDatabase.java:125-151 | an unknown name never validates |
| Users.UserDatabase.ValidateTotp | src/server/UserDatabase.java:157-173 | the result is the decoded key's `isValidCode` verdict; an unknown name, an undecodable key and a null code give false |
| Users.CreatedRecordShape | src/server/UserDatabase.java:97-104 | after creation, the name exists; its public key is the one given; its stored salt, TOTP key and hash decode back to the values used |
| Users.CreatedPasswordValidates | src/server/UserDatabase.java:92-104 | after creating an account with password p, validating p succeeds |
| Users.CreatedTotpValidates | src/server/UserDatabase.java:95-101 | after creation, a code computed from the handed-out secret for the current or an adjacent step passes `validateTOTP` |
| Board.Append | src/server/BulletinBoard.java:42-45 | adding a post adds its recipient's key and changes no other recipient's list |
| Board.AppendAddsAtEnd | src/server/BulletinBoard.java:42-45 | the recipient's list grows by the post at its end, every other list is unchanged, and every list stays non-empty and addressed to its key |
| Board.FilterMembers | src/server/BulletinBoard.java:42-54 | a recipient's list holds exactly the posts addressed to that recipient |
| Board.GroupedIsFilter | src/server/BulletinBoard.java:27-31 | adding posts one by one files under each recipient exactly that recipient's posts, in their original order |
| Board.FilterOfConcat | src/server/BulletinBoard.java:61-65 | in the saved image, a recipient's posts are exactly the ones of that recipient's list |
| Board.RegroupRestores | src/server/BulletinBoard.java:27-31 | regrouping the saved posts, taken list by list in any key order, rebuilds the map |
| Board.BoardImage | src/server/BulletinBoard.java:58-67 | the saved document has exactly the key "posts", an array with one entry per post |
| Board.LoadedPosts | src/server/BulletinBoard.java:22-36 | posts are loaded only from a stored "posts" array; they are its leading elements that deserialize, each in its place, and the element after them, if any, fails |
| Board.LoadSavedImage | src/server/BulletinBoard.java:24-31 | loading a saved image gives back its posts in order |
| Board.SaveThenLoad | src/server/BulletinBoard.java:18-79 | a board saved and read back by the constructor is the same board |
| Board.BulletinBoard.constructor | src/server/BulletinBoard.java:18-40 | the board starts well formed, holding the grouped posts the file yields |
| Board.BulletinBoard.LoadPosts | src/server/BulletinBoard.java:27-31 | the loading loop files each decoded post in order and stops at the first failure |
| Board.BulletinBoard.AddToMemory | src/server/BulletinBoard.java:42-45 | the post is appended to its recipient's list |
| Board.BulletinBoard.AddPost | src/server/BulletinBoard.java:47-50 | the post is kept whatever the save's outcome, the board stays well formed, and the result is the save's outcome |
| Board.BulletinBoard.GetPosts | src/server/BulletinBoard.java:52-54 | the list is empty exactly when the name has no posts, and every post in it is addressed to the name |
| Board.BulletinBoard.SaveImage | src/server/BulletinBoard.java:56-67 | the image is every list in the map's iteration order (each key once), each list in its own order |
| Board.AddEncoded | src/server/BulletinBoard.java:62-64 | the inner save loop appends each post's JSON form in order |
| Service.FaultOutcome | src/server/BulletinBoardService.java:160-162 | an IOException is caught and the loop goes on silently; any other exception ends the server |
| Service.ServeCreate | src/server/BulletinBoardService.java:87-105 | the board is untouched; the user store changes only by one record added under the request's name, which was free |
| Service.ServeAuthenticate | src/server/BulletinBoardService.java:107-119 | nothing changes, and a reply is sent exactly when the request deserializes |
| Service.ServePubKeyRequest | src/server/BulletinBoardService.java:121-127 | nothing changes |
| Service.ServePost | src/server/BulletinBoardService.java:129-140 | the user store is untouched; the board changes only for a request that deserializes and names a known recipient |
| Service.ServeGetMessage | src/server/BulletinBoardService.java:142-156 | nothing changes |
| Service.Serve | src/server/BulletinBoardService.java:73-158 | only a request tagged "Create" or "Post" can change the users or the board |
| Service.HandleAuthenticate | src/server/BulletinBoardService.java:111-118 | the reply is a well-formed status whose flag is true exactly when both the password and the TOTP code validate |
| Service.Dispatch | src/server/BulletinBoardService.java:73-158 | the turn's outcome and the new users and posts are exactly what `Serve` gives; the board stays well formed |
| Service.MissingTypeStops | src/server/BulletinBoardService.java:74-80 | a request without a type, or with a null one, ends the server |
| Service.NonStringTypeStops | src/server/BulletinBoardService.java:74 | a non-string type throws ClassCastException and ends the server |
| Service.UnmatchedTypeSilent | src/server/BulletinBoardService.java:86-158 | a string type naming none of the five cases gets no reply and changes nothing |
| Service.PubKeyRequestReplies | src/server/BulletinBoardService.java:121-127 | an unknown name gets a false status with "User not found."; a known one gets its key with a true status, or "User not found." when it has none; a non-string stored key ends the server; nothing changes |
| Service.AuthenticateNeverAnswered | src/server/BulletinBoardService.java:107-109 | a request tagged "Authenticate" is rejected by `deserialize`: no reply, nothing changes |
| Service.ClientLoginIgnored | src/server/BulletinBoardService.java:86-158 | the login message a client sends matches no case: no reply, nothing changes |
| Service.ServeOnlyAdds | src/server/BulletinBoardService.java:86-158 | no turn removes or alters an existing user record or shortens a recipient's list, and the board stays well formed |
| Service.CreateTakenNameRefused | src/server/BulletinBoardService.java:87-105 | creating an account under a taken name answers "User already exists." and changes nothing |
| Service.CreateThenPublicKey | src/server/BulletinBoardService.java:87-127 | a successful creation answers with the Base64 TOTP secret, and a following key request returns the registered key |
| Service.CreateSaveFailureKeepsRecord | src/server/BulletinBoardService.java:91-103 | a creation whose save fails answers "User already exists." but keeps the record, so a retry is refused |
| Service.PostToUnknownRefused | src/server/BulletinBoardService.java:129-140 | a post to an unknown recipient is refused and the board is unchanged |
| Service.PostThenGet | src/server/BulletinBoardService.java:129-156 | a post to a known recipient is answered with the save's outcome, and the recipient's next GetMessage returns the earlier posts followed by it |
| Service.GetMessageReplies | src/server/BulletinBoardService.java:142-156 | GetMessage answers with exactly the recipient's posts, or a refusal when there are none |
| CreateMsg.Encode | src/common/CreateMessage.java:48-55 | the object has exactly the keys type, user, pass and pubkey, and the tag "Create" |
| CreateMsg.Decode | src/common/CreateMessage.java:62-77 | a non-object or a wrong tag gives InvalidObjectException; otherwise the fields are read exactly when each is a string or null |
| CreateMsg.RoundTrip | src/common/CreateMessage.java:48-77 | deserializing what `toJSONType` wrote recovers every field |
| CreateMsg.CreateMessage.Deserialize | src/common/CreateMessage.java:62-77 | succeeds exactly when `Decode` does, with its value; a failure throws `Decode`'s fault; a rejected object or tag leaves the fields as they were |
| CreateMsg.CreateMessage.constructor | src/common/CreateMessage.java:21-25 | the fields hold the given values |
| CreateMsg.CreateMessage.Empty | src/common/CreateMessage.java:27-29 | every field is null |
| CreateMsg.CreateMessage.ToJsonType | src/common/CreateMessage.java:48-55 | `deserialize` reads the written object back as this message's fields |
| AuthenticateMsg.Encode | src/common/AuthenticateMessage.java:48-55 | the object has exactly the keys type, user, pass and otp, and the lower-case tag "authenticate" |
| AuthenticateMsg.Decode | src/common/AuthenticateMessage.java:62-77 | a non-object or a wrong tag gives InvalidObjectException; otherwise the fields are read exactly when each is a string or null |
| AuthenticateMsg.RoundTrip | src/common/AuthenticateMessage.java:48-77 | deserializing what `toJSONType` wrote recovers every field |
| AuthenticateMsg.RejectsCapitalisedTag | src/common/AuthenticateMessage.java:15 | the tag "Authenticate" is refused with InvalidObjectException |
| AuthenticateMsg.AuthenticateMessage.constructor | src/common/AuthenticateMessage.java:21-25 | the fields hold the given values |
| AuthenticateMsg.AuthenticateMessage.Empty | src/common/AuthenticateMessage.java:27-29 | every field is null |
| AuthenticateMsg.AuthenticateMessage.ToJsonType | src/common/AuthenticateMessage.java:48-55 | `deserialize` reads the written object back as this message's fields |
| AuthenticateMsg.AuthenticateMessage.Deserialize | src/common/AuthenticateMessage.java:62-77 | succeeds exactly when `Decode` does, with its value; a failure throws `Decode`'s fault; a rejected object or tag leaves the fields as they were |
| PostMsg.Encode | src/common/PostMessage.java:54-62 | the object has exactly the keys type, user, message, wrappedkey and iv, and the tag "Post" |
| PostMsg.Decode | src/common/PostMessage.java:69-85 | a non-object or a wrong tag gives InvalidObjectException; otherwise the fields are read exactly when each is a string or null |
| PostMsg.RoundTrip | src/common/PostMessage.java:54-85 | deserializing what `toJSONType` wrote recovers every field |
| PostMsg.PostMessage.constructor | src/common/PostMessage.java:22-27 | the fields hold the given values |
| PostMsg.PostMessage.Empty | src/common/PostMessage.java:29-31 | every field is null |
| PostMsg.PostMessage.ToJsonType | src/common/PostMessage.java:54-62 | `deserialize` reads the written object back as this message's fields |
| PostMsg.PostMessage.Deserialize | src/common/PostMessage.java:69-85 | succeeds exactly when `Decode` does, with its value; a failure throws `Decode`'s fault; a rejected object or tag leaves the fields as they were |
| PubKeyRequestMsg.Encode | src/common/PubKeyRequestMessage.java:36-41 | the object has exactly the keys type and user, and the tag "PubKeyRequest" |
| PubKeyRequestMsg.Decode | src/common/PubKeyRequestMessage.java:48-61 | a non-object or a wrong tag gives InvalidObjectException; otherwise the user is read exactly when it is a string or null |
| PubKeyRequestMsg.RoundTrip | src/common/PubKeyRequestMessage.java:36-61 | deserializing what `toJSONType` wrote recovers the user |
| PubKeyRequestMsg.PubKeyRequestMessage.Deserialize | src/common/PubKeyRequestMessage.java:48-61 | succeeds exactly when `Decode` does, with its value; a rejected object or tag leaves the user as it was |
| PubKeyRequestMsg.PubKeyRequestMessage.constructor | src/common/PubKeyRequestMessage.java:19-21 | the user is the given one |
| PubKeyRequestMsg.PubKeyRequestMessage.Empty | src/common/PubKeyRequestMessage.java:23-25 | the user is null |
| PubKeyRequestMsg.PubKeyRequestMessage.ToJsonType | src/common/PubKeyRequestMessage.java:36-41 | `deserialize` reads the written object back as this message's user |
| GetMsg.Encode | src/common/GetMessage.java:35-40 | the object has exactly the keys type and user, and the tag "GetMessage" |
| GetMsg.Decode | src/common/GetMessage.java:47-60 | a non-object or a wrong tag gives InvalidObjectException; otherwise the user is read exactly when it is a string or null |
| GetMsg.RoundTrip | src/common/GetMessage.java:35-60 | deserializing what `toJSONType` wrote recovers the user |
| GetMsg.GetMessage.Deserialize | src/common/GetMessage.java:47-60 | succeeds exactly when `Decode` does, with its value; a rejected object or tag leaves the user as it was |
| GetMsg.GetMessage.constructor | src/common/GetMessage.java:18-20 | the user is the given one |
| GetMsg.GetMessage.Empty | src/common/GetMessage.java:22-24 | the user is null |
| GetMsg.GetMessage.ToJsonType | src/common/GetMessage.java:35-40 | `deserialize` reads the written object back as this message's user |
| StatusMsg.GetBool | src/common/StatusMessage.java:64 | a boolean is read exactly when present and boolean; a missing or null value fails the unboxing with NullPointerException |
| StatusMsg.Encode | src/common/StatusMessage.java:41-47 | the object has exactly the keys type, status and payload, the tag "Status" and the flag given |
| StatusMsg.Decode | src/common/StatusMessage.java:55-69 | a non-object or a wrong tag gives InvalidObjectException; a missing status gives NullPointerException; success needs a boolean status and a string-or-null payload |
| StatusMsg.RoundTrip | src/common/StatusMessage.java:41-69 | deserializing what `toJSONType` wrote recovers the flag and the payload |
| StatusMsg.StatusMessage.Deserialize | src/common/StatusMessage.java:55-69 | succeeds exactly when `Decode` does; a failed tag or status check leaves both fields; a good status is stored even when the payload cast then fails |
| StatusMsg.StatusMessage.constructor | src/common/StatusMessage.java:19-22 | the flag and the payload are the given ones |
| StatusMsg.StatusMessage.Empty | src/common/StatusMessage.java:24-26 | Java's defaults: a false flag and a null payload |
| StatusMsg.StatusMessage.ToJsonType | src/common/StatusMessage.java:41-47 | `deserialize` reads the written object back as this message's flag and payload |
| PostObjectMsg.Encode | src/common/PostObject.java:66-73 | the stored form has exactly user, message, wrappedkey and iv, with no "type" |
| PostObjectMsg.Decode | src/common/PostObject.java:79-90 | a non-object gives InvalidObjectException; an object is read exactly when each field is a string or null |
| PostObjectMsg.RoundTrip | src/common/PostObject.java:66-90 | deserializing the stored form recovers all four fields |
| PostObjectMsg.TypeKeyIgnored | src/common/PostObject.java:79-90 | a "type" entry, whatever its value, does not change what is read |
| PostObjectMsg.PostObject.constructor | src/common/PostObject.java:32-42 | the fields hold the given values |
| PostObjectMsg.PostObject.Deserialize | src/common/PostObject.java:79-90 | succeeds exactly when `Decode` does, with its value; a non-object leaves the fields as they were |
| PostObjectMsg.PostObject.Empty | src/common/PostObject.java:29 | every field is null |
| PostObjectMsg.PostObject.ToJsonType | src/common/PostObject.java:66-73 | `deserialize` reads the stored form back as this post's fields |
| ResponseMsg.Encode | src/common/ResponseMessage.java:38-49 | the object has exactly the keys type and posts, the tag "GetResponseMessage", and one array entry per post |
| ResponseMsg.PostsArray | src/common/ResponseMessage.java:56-71 | the object, tag and array checks succeed together or fail with InvalidObjectException |
| ResponseMsg.DecodedPrefix | src/common/ResponseMessage.java:76-80 | the posts decoded before the first failing element: each of them decodes to its post, and the next element fails |
| ResponseMsg.Decode | src/common/ResponseMessage.java:56-81 | a failed check gives InvalidObjectException; success yields one post per array element |
| ResponseMsg.DecodeEncodedPosts | src/common/ResponseMessage.java:38-49 | every element of an encoded post list decodes back to its post |
| ResponseMsg.RoundTrip | src/common/ResponseMessage.java:38-81 | deserializing what `toJSONType` wrote gives the same posts in the same order |
| ResponseMsg.ResponseMessage.constructor | src/common/ResponseMessage.java:22-24 | the message holds the given posts |
| ResponseMsg.ResponseMessage.Empty | src/common/ResponseMessage.java:26-28 | the default constructor holds no posts |
| ResponseMsg.ResponseMessage.ToJsonType | src/common/ResponseMessage.java:38-49 | the loop produces the encoding of the held posts |
| ResponseMsg.ResponseMessage.Deserialize | src/common/ResponseMessage.java:56-81 | succeeds exactly when `Decode` does; a failed check keeps the old posts; after the checks, the posts are the decoded prefix, even when an element then fails |
| BaseMessage.Message.constructor | src/common/Message.java:17-19 | the message holds the given tag |
| BaseMessage.Message.GetType | src/common/Message.java:26-28 | the tag given at construction |
| BaseMessage.Message.ToJsonObject | src/common/Message.java:36-40 | an object whose only key is "type", holding the tag |
| PostFamily.EncodePost | src/common/Post.java:81-88 | the object has the base tag "post" plus the four post fields |
| PostFamily.PostFromObject | src/common/Post.java:36-42 | the four casts succeed exactly when each field is a string or null, else ClassCastException; the tag is not looked at |
| PostFamily.PostRoundTrip | src/common/Post.java:36-88 | reading back what `toJSONObject` wrote recovers the post |
| PostFamily.PostReadsLikePostObject | src/common/Post.java:36-42 | a `Post` read from an object is what the server's `PostObject` reads from it |
| PostFamily.Post.constructor | src/common/Post.java:23-29 | the tag is "post" and the fields hold the given values |
| PostFamily.Post.ToJsonObject | src/common/Post.java:81-88 | the object carries the tag, and reading it back gives this post's four fields |
| PostFamily.Post.Deserialize | src/common/Post.java:96-104 | a non-object changes nothing and throws nothing; an object is read as `new Post(JSONObject)` reads it |
| PostFamily.NewPostFromObject | src/common/Post.java:36-42 | the constructor succeeds exactly when the casts do, with tag "post" and those values |
| PostFamily.UserRequestObject | src/common/Post.java:143-147 | a one-user request has exactly the keys type and user |
| PostFamily.PubKeyRequestWireCompatible | src/common/Post.java:110-161 | the file-local `PubKeyRequestMessage` writes exactly what the public class writes, and that class reads it back |
| PostFamily.GetMessageRequestWireCompatible | src/common/Post.java:166-217 | `GetMessageRequest` writes exactly what `GetMessage` writes, and `GetMessage` reads it back |
| PostFamily.PubKeyRequestMessage.constructor | src/common/Post.java:118-121 | the tag is "PubKeyRequest" and the user the given one |
| PostFamily.PubKeyRequestMessage.FromObject | src/common/Post.java:128-131 | built exactly when the user casts, else ClassCastException |
| PostFamily.PubKeyRequestMessage.ToJsonObject | src/common/Post.java:143-147 | the tagged object carries the user |
| PostFamily.PubKeyRequestMessage.Deserialize | src/common/Post.java:155-160 | a non-object is ignored; an object has its user cast, and a failed cast keeps the old user |
| PostFamily.GetMessageRequest.constructor | src/common/Post.java:174-177 | the tag is "GetMessage" and the user the given one |
| PostFamily.GetMessageRequest.FromObject | src/common/Post.java:184-187 | built exactly when the user casts, else ClassCastException |
| PostFamily.GetMessageRequest.ToJsonObject | src/common/Post.java:199-203 | the tagged object carries the user |
| PostFamily.GetMessageRequest.Deserialize | src/common/Post.java:211-216 | a non-object is ignored; an object has its user cast, and a failed cast keeps the old user |
| PostFamily.EncodeResponse | src/common/Post.java:245-256 | the object has exactly the keys type and posts, the tag "GetResponseMessage", and one entry per post |
| PostFamily.ElementPost | src/common/Post.java:271 | an object element is read as a `Post`; a null element fails with NullPointerException, any other with ClassCastException |
| PostFamily.ElementPosts | src/common/Post.java:269-272 | every element is read as a post, or the reading fails |
| PostFamily.FirstFailingElement | src/common/Post.java:269-272 | the fault raised is that of the first element that fails |
| PostFamily.DecodeResponse | src/common/Post.java:264-276 | a non-object or a missing or null "posts" assigns nothing; a non-array fails the cast; an array yields all its posts or the first element's fault |
| PostFamily.ElementPostsOfEncoded | src/common/Post.java:250-252 | every element of an encoded post array reads back as its post |
| PostFamily.ResponseRoundTrip | src/common/Post.java:245-276 | deserializing what `toJSONObject` wrote gives the same posts in the same order |
| PostFamily.ResponseMessageReadsGetResponse | src/common/Post.java:245-256 | the server's `ResponseMessage.deserialize` accepts this class's output and reads the same posts |
| PostFamily.GetResponseMessage.constructor | src/common/Post.java:230-233 | the tag is "GetResponseMessage" and the array the given one |
| PostFamily.GetResponseMessage.ToJsonObject | src/common/Post.java:245-256 | the loop produces the encoding of the array's posts |
| PostFamily.GetResponseMessage.Deserialize | src/common/Post.java:264-276 | a failure throws the value form's fault and keeps the old array; when nothing is assigned, nothing changes; otherwise the array is replaced by the decoded posts |
| ClientSession.ReadStatus | src/client/Client.java:71-72 | a missing reply is an IOException; a reply is read as a StatusMessage |
| ClientSession.ParsedPosts | src/client/Client.java:208-224 | an unparsable payload yields no posts; its other properties are stated by `ClientSession.ParsedPostsAgrees` |
| ClientSession.ParsePostObjects | src/client/Client.java:208-224 | when every element deserializes, the result has one post per element, in order; when any element fails, the result is empty |
| ClientSession.ParsedPostsAgrees | src/client/Client.java:208-224 | the value form of `parsePostObjects` has the same two properties as the loop |
| ClientSession.ParseServerPosts | src/client/Client.java:208-224 | parsing a post array the server wrote gives back its posts |
| ClientSession.DecryptPosts | src/client/Client.java:226-248 | one line per post, in order: the plaintext, or the placeholder when decryption fails |
| ClientSession.ReceiveInto | src/client/Client.java:71-72 | the StatusMessage is filled exactly when the reply reads as one |
| ClientSession.Client.constructor | src/client/Client.java:38-44 | a new client holds no session |
| ClientSession.Client.CreateAccount | src/client/Client.java:57-86 | the private key is kept before sending; a true status makes the client take the name and the returned TOTP secret; otherwise the exception carries the payload and the session is unchanged |
| ClientSession.Client.Authenticate | src/client/Client.java:88-108 | the result is the reply's status, and the client takes the name only on a true status |
| ClientSession.KeyAnswer | src/client/Client.java:124-134 | the key is the payload of a true status; a false status becomes an exception carrying the payload; a failed read keeps its own fault |
| ClientSession.PostRequest | src/client/Client.java:158-159 | the Post request deserializes to the recipient and the sealed message's three parts |
| ClientSession.Client.GetPublicKey | src/client/Client.java:117-138 | without a session nothing is sent and IllegalStateException is thrown; otherwise the key request is sent, and a false status becomes an exception carrying the payload |
| ClientSession.Client.PostMessage | src/client/Client.java:140-169 | without a session nothing is sent; a failed key lookup or a failed encryption sends only the key request and throws that fault; otherwise the sealed post always follows the key request, and the result is the post reply's status or the fault of reading it |
| ClientSession.Client.GetMessages | src/client/Client.java:171-198 | without a session nothing is sent; a false status becomes an exception; a true status always yields a result, one decrypted line per parsed post |
| ClientSession.Client.GetTotpKey | src/client/Client.java:250-252 | the TOTP secret the client took when its account was created (set by `ClientSession.Client.CreateAccount`) |
| ClientSession.Client.GetUsername | src/client/Client.java:254-256 | the name the client took on a successful creation or login |
| ClientSession.Delivered | src/client/Client.java:71-72 | the client reads a reply exactly when the server's turn sent one, and then reads that reply |
| ClientSession.LoginNeverAnswered | src/client/Client.java:88-97 | the server never answers the client's login request, so the reply `authenticate` reads is a closed connection |
| ClientSession.MailboxNeverRead | src/client/Client.java:183-191 | whatever the mailbox holds, the client's read of the server's answer fails or carries a false status |
| ClientSession.KeyLookupAnswered | src/client/Client.java:117-134 | the key request for a registered user is answered with a true status and that user's key |

## Left out

- Sockets, TLS, the trust store and `SocketWrapper` are not modelled. A reply the client waits for is a parameter, and `None` means the connection closed without one. Failures of `connect()` and of `sendMessage` are not modelled.
- The server's `while (true)` accept loop is not modelled as a loop. `Service.Dispatch` is one turn of it, and `ServerStops` marks the end of the loop. Server start-up and argument handling (`BulletinBoardServer`) are not part of this model.
- JSON text is not parsed or printed; messages are JSON values. The client's `JsonIO.readArray` is a parameter (`Tools.readArray`).
- File I/O is not modelled:
  - The user file and the board file are read as values (`LoadUsers`'s entry list, `BoardFile`).
  - A write is represented by a flag saying whether it succeeded.
  - The content `saveUsers` writes is not modelled.
  - The user store's constructor models only the case of a missing file.
- Cryptographic primitives are parameters and are not modelled:
  - scrypt, HMAC-SHA1, Base64, ElGamal, AES and secure randomness;
  - `EncryptionUtil` and `CryptoUtils` are not part of this model.
  - Base64 is assumed to round-trip (`Users.Lawful`) where a lemma needs it.
- Key-pair generation is a parameter of `CreateAccount`, and its failure is not modelled.
- `ClientCLI` and `ClientApp` (menus and console I/O) are not part of this model.
- The clock is a parameter, `nowMillis`.
- Totp.GenerateTotp: the width is a natural number; a negative `digits` is not modelled.
- Users.ValueOf: `String.valueOf` of a nested array or object is reduced to its bracket pair, and a number is rendered as an integer. Records that `createUser` writes hold only strings under "salt", "pass" and "totp-key".
- Users.UserDatabase.ValidatePassword: its contract states only that an unknown name fails. The full verdict is the function `Users.PasswordValid`, which `Service.HandleAuthenticate` and `Users.CreatedPasswordValidates` use.
- CreateMsg.CreateMessage.Deserialize, AuthenticateMsg.AuthenticateMessage.Deserialize, PostMsg.PostMessage.Deserialize, PostObjectMsg.PostObject.Deserialize: these do not state which fields keep the values assigned before a later cast fails. The method bodies assign in the source's order, but the contracts leave that state open.
- PostFamily.Post.Deserialize: likewise, after a failed cast the contract leaves open which fields were assigned.
- Aliasing of Java lists is not modelled:
  - `getPosts` returns the live list, and `ResponseMessage` keeps a reference to it.
  - The model copies values instead.
- PostFamily.GetResponseMessage.ToJsonObject: a null `posts` array and null elements in it (both throw NullPointerException in the source) are not modelled.
- Service.HandleAuthenticate is not called from `Service.Dispatch`, because the Authenticate case can never get past `deserialize` (see `Service.AuthenticateNeverAnswered`). It models what that case would do.
- `Message` and the classes of `Post.java` are modelled as separate classes that each hold the tag. Java's inheritance is not modelled.
- Console logging (`System.out`, `printStackTrace`) is not modelled.
