# Swoole WebSocket relay — a Dafny model of its core

This project models the core of a PHP WebSocket relay built on Swoole.
Clients open a connection with `user-id`, `app-id` and `token` headers, join
named rooms, and send typed JSON frames (`join_room`, `leave_room`,
`message`, `image`, `document`, `notification`). The server fans the frames
out to the other members of a room. Four pieces are modelled:

- **RoomManager** (`room_manager.dfy`, module `Rooms`). It maps room ids to
  their members. The class `RoomManager` updates a `map<RoomId, seq<UserId>>`
  in place. The functions `Created`, `Joined` and `Left` specify it, and the
  lemmas state idempotence, the join/leave round trip and "no empty room
  after a join or a leave".
- **TokenCache** (`token_cache.dfy`, module `Tokens`). It keeps verified
  tokens with an absolute expiry and evicts an entry lazily, when a read
  finds it expired. The clock is the explicit parameter `now`.
- **MessageValidator** (`message_validator.dfy`, module `Validation`). This
  part is pure. It models the two phases of `validate`: the schema check,
  and the per-type policy. The policy covers UTF-8 byte-length limits,
  `htmlspecialchars(..., ENT_QUOTES)` escaping, and, for images and
  documents, the base64, size and MIME gates, in that order.
- **WebSocketServer** (`connection_registry.dfy`, module `Registry`, and
  `websocket_server.dfy`, module `Server`). This covers the handshake gate,
  the ordered `fdToUserIdMap` registry, cache-first token validation,
  routing in `onMessage` and recipient selection in `sendMessage`. Each
  handler is a method of the class `WebSocketServer`. Its postcondition ties
  the new state and the emitted socket actions to a pure function
  (`HandleOpen`, `HandleMessage`, `Closed`, `Broadcast`). The lemmas about
  those functions carry the server's guarantees.

Libraries and the transport are parameters, never bodiless functions. These
are JSON decoding, the JSON-Schema validator, strict base64 decoding,
`finfo` sniffing and `JWT::decode`. They are function-valued fields of
`Validation.Externals` and `Server.Config`. The transport's
`isEstablished` is a set of fds. Pushes and disconnects are returned as
`Server.Action` values.

The model follows the code, not the design description, where the two
differ:

- `validate` returns its raw input. The sanitized (escaped) copy is built
  and then thrown away, so the server broadcasts the content exactly as it
  was received (`Server.BroadcastCarriesRawContent`).
- Limits are `strlen` byte counts of the UTF-8 text, not character counts.
- `join_room` and `leave_room` allow 25 bytes. Their rejection text still
  says "Max length is 512 characters."
- Every frame must carry its own `token`, which is verified again (cache
  first) on each frame.
- Closing a connection removes only the fd's binding, and only when the
  bound user id is truthy in PHP (not `""` or `"0"`). It never removes the
  user from any room.
- A `"0"` token header counts as "not provided" (close code 4001), because
  PHP's `empty("0")` is true.
- A base64 payload that decodes to `""` or `"0"` is rejected as invalid
  base64.
- A broadcast goes only to the FIRST fd bound to each member (`array_search`).
  A user's later connections receive nothing
  (`Server.OnlyFirstConnectionReached`). A new fd is bound after every
  existing binding, so opening a second connection changes no broadcast
  (`Server.SecondConnectionChangesNoBroadcast`).
- The server object takes the configured app id as an option. The shipped
  configuration has none (`Server.ShippedAppId`); see Findings.

## Model

| member | source | states |
|---|---|---|
| `Rooms.Created` | src/Server/RoomManager.php:9-14 | room exists afterwards; existing room untouched; a new room is stored empty; other rooms unchanged |
| `Rooms.Joined` | src/Server/RoomManager.php:16-22 | user is a member afterwards; room created if absent; other rooms and members unchanged; a new member is appended at the end |
| `Rooms.Left` | src/Server/RoomManager.php:24-33 | user not a member afterwards; the room is absent or non-empty; other rooms and members unchanged; room deleted exactly when it ends up empty |
| `Rooms.Without` | src/Server/RoomManager.php:26-28 | removing a member keeps exactly the other members; removing a non-member changes nothing |
| `Rooms.WithoutRemovesAt` | src/Server/RoomManager.php:26-28 | removing a member listed once cuts out exactly its position: the others keep their order |
| `Rooms.Participants` | src/Server/RoomManager.php:40-43 | `null` exactly for an absent room, otherwise the room's members |
| `Rooms.JoinIdempotent` | src/Server/RoomManager.php:18-21 | joining twice gives the same rooms as joining once |
| `Rooms.CreateIdempotent` | src/Server/RoomManager.php:9-14 | creating twice equals creating once; no member is dropped |
| `Rooms.LeaveNonMember` | src/Server/RoomManager.php:26-32 | leaving as a non-member changes nothing, except deleting a room stored empty |
| `Rooms.JoinLeaveRoundTrip` | src/Server/RoomManager.php:16-43 | join then leave of an absent room restores the rooms; participants is then `null` |
| `Rooms.JoinLeaveKeepNoEmptyRoom` | src/Server/RoomManager.php:16-33 | join and leave preserve "no room is empty" |
| `Rooms.CreatedMayStoreEmpty` | src/Server/RoomManager.php:11-13 | `createRoom` can store an empty room |
| `Rooms.LeftKeepsWellFormed` | src/Server/RoomManager.php:24-33 | leave keeps every room free of duplicate members |
| `Rooms.RoomManager.constructor` | src/Server/RoomManager.php:7 | starts with no rooms |
| `Rooms.RoomManager.CreateRoom` | src/Server/RoomManager.php:9-14 | new rooms equal `Created` of the old ones |
| `Rooms.RoomManager.JoinRoom` | src/Server/RoomManager.php:16-22 | new rooms equal `Joined` of the old ones |
| `Rooms.RoomManager.LeaveRoom` | src/Server/RoomManager.php:24-33 | new rooms equal `Left` of the old ones |
| `Rooms.RoomManager.IsUserInRoom` | src/Server/RoomManager.php:35-38 | true iff the room exists and lists the user |
| `Rooms.RoomManager.GetRoomParticipants` | src/Server/RoomManager.php:40-43 | the room's member list, or none for an absent room |
| `Tokens.Stored` | src/Utils/TokenCache.php:14-20 | the entry holds the claims with expiry `now + ttl`, overwriting any earlier one; other tokens unchanged |
| `Tokens.Fetched` | src/Utils/TokenCache.php:22-33 | returns claims iff an entry exists and `expires_at > now` |
| `Tokens.AfterFetch` | src/Utils/TokenCache.php:24-30 | an expired entry for the token is removed; nothing else changes |
| `Tokens.StoredThenFetched` | src/Utils/TokenCache.php:14-26 | with `ttl > 0`, a stored token is returned at every instant before `now + ttl` |
| `Tokens.ExpiredAtDeadline` | src/Utils/TokenCache.php:25-29 | expiry is strict: at `now + ttl` and later the entry is gone |
| `Tokens.MissIsSticky` | src/Utils/TokenCache.php:27-32 | after a miss, no later read returns anything until the next set |
| `Tokens.AbsentFetchUnchanged` | src/Utils/TokenCache.php:24-32 | a read of an absent token returns null and leaves the cache unchanged |
| `Tokens.OtherTokensIndependent` | src/Utils/TokenCache.php:14-33 | set and get on one token never change what another token reads |
| `Tokens.TokenCache.constructor` | src/Utils/TokenCache.php:12 | empty cache with the given TTL |
| `Tokens.TokenCache.Set` | src/Utils/TokenCache.php:14-20 | the new cache is `Stored` of the old one |
| `Tokens.TokenCache.Get` | src/Utils/TokenCache.php:22-33 | returns `Fetched`; the new cache is `AfterFetch` of the old one |
| `Validation.Validate` | src/Utils/MessageValidator.php:23-29 | on success returns exactly its input; succeeds iff no schema error and the type phase passes; otherwise the first phase's error |
| `Validation.ValidateBasedOnType` | src/Utils/MessageValidator.php:49-145 | a JSON error is reported as such; success needs a known type and present content; type, room and token are kept |
| `Validation.SchemaErrorMessage` | src/Utils/MessageValidator.php:38-46 | the loop's message is the `[JSON-SCHEMA] ` prefix followed by every schema error, in order, each after a bar separator |
| `Validation.JoinedErrorsConcat` | src/Utils/MessageValidator.php:41-43 | the accumulated text of two runs of errors is the text of the first run followed by the text of the second |
| `Validation.ErrorsInOrder` | src/Utils/MessageValidator.php:39-43 | each error appears after a bar separator, preceded by the errors before it and followed by those after it |
| `Validation.TextLimit` | src/Utils/MessageValidator.php:68-132 | 25 bytes for join/leave, 512 for notification, 65535 for message |
| `Validation.ByteLength` | src/Utils/MessageValidator.php:68 | no contract of its own; `ByteLengthBounds` states its properties |
| `Validation.ByteLengthBounds` | src/Utils/MessageValidator.php:68 | `strlen` of the UTF-8 text is between 1 and 4 bytes per character, exactly 1 for ASCII |
| `Validation.HtmlEscape` | src/Utils/MessageValidator.php:72 | no contract of its own; the `Escape…` lemmas below state its properties |
| `Validation.EscapeChar` | src/Utils/MessageValidator.php:72 | the five special characters become entities; every other character is kept |
| `Validation.EscapeRoundTrip` | src/Utils/MessageValidator.php:72-73 | decoding the entities of the escaped text gives back the original |
| `Validation.EscapeRemovesMarkup` | src/Utils/MessageValidator.php:88-89 | escaped text contains no `<`, `>`, `"` or `'` |
| `Validation.EscapePlainText` | src/Utils/MessageValidator.php:136-137 | text without special characters is unchanged by escaping |
| `Validation.EscapeChangesSpecialText` | src/Utils/MessageValidator.php:88-89 | text with a special character is changed (grows) |
| `Validation.CheckText` | src/Utils/MessageValidator.php:68-73 | passes iff the byte length is within the limit; the content is then escaped and the other fields kept; otherwise the given error |
| `Validation.CheckDocument` | src/Utils/MessageValidator.php:91-111 | invalid base64 first; passes iff the decoded size is at most 1 MiB and the sniffed type is `application/pdf`; the message passes unchanged |
| `Validation.CheckImage` | src/Utils/MessageValidator.php:112-130 | invalid base64 first; passes iff the decoded size is at most 1 MiB and the sniffed type is JPEG, PNG or GIF; the message passes unchanged |
| `Validation.ValidationError.Text` | src/Utils/MessageValidator.php:54-140 | no contract of its own; the exception messages, word for word |
| `Validation.DecodePayload` | src/Utils/MessageValidator.php:92-96 | strict decode failure or a falsy (`""`, `"0"`) result is "Invalid base64 encoding"; otherwise the decoded bytes |
| `Validation.RequiredFields` | src/Utils/MessageValidator.php:57-63 | a missing type, then a missing content, fail before any type-specific check |
| `Validation.TextTypePolicy` | src/Utils/MessageValidator.php:67-90 | text types pass iff the byte length is within the limit; the content is then escaped; the error kind per type |
| `Validation.RoomNameBoundary` | src/Utils/MessageValidator.php:67-78 | for `join_room` and `leave_room`, 25 bytes pass, 26 fail, with a message that mentions 512 characters |
| `Validation.NotificationBoundary` | src/Utils/MessageValidator.php:131-134 | for `notification`, 512 bytes pass, 513 fail |
| `Validation.BinaryTypePolicy` | src/Utils/MessageValidator.php:91-130 | image/document gates in order: base64, decoded size at most 1048576, sniffed MIME whitelist; content passes unchanged |
| `Validation.PngIsNotADocument` | src/Utils/MessageValidator.php:102-109 | a document sniffing as `image/png` is refused as an invalid document type |
| `Validation.UnknownTypeRejected` | src/Utils/MessageValidator.php:139-140 | any other type is "Invalid message type" |
| `Registry.IndexOf` | src/Server/WebSocketServer.php:87 | the position of the first binding of the fd, or none when unbound |
| `Registry.Lookup` | src/Server/WebSocketServer.php:121 | a user is found iff the fd is bound; with unique fds it is that binding's user |
| `Registry.Bind` | src/Server/WebSocketServer.php:87 | the fd maps to the user afterwards; every other fd unchanged; fds stay unique; a new fd is appended after every binding, a bound fd is overwritten in place |
| `Registry.Unbind` | src/Server/WebSocketServer.php:191 | exactly the fd's binding is removed; an unbound fd leaves the registry as it was |
| `Registry.UnbindRemovesAt` | src/Server/WebSocketServer.php:191 | with unique fds, unbinding cuts out exactly the fd's position: the other bindings keep their order |
| `Registry.UnbindAtHead` | src/Server/WebSocketServer.php:191 | unbinding the first binding's fd leaves exactly the bindings after it |
| `Registry.UnbindKeepsOthers` | src/Server/WebSocketServer.php:191 | unbinding keeps fds unique and every other fd's user |
| `Registry.SearchFd` | src/Server/WebSocketServer.php:252 | the fd of the FIRST binding to the user, or none iff the user is unbound |
| `Registry.SearchFdAppend` | src/Server/WebSocketServer.php:87-252 | appending a binding changes the first match only for a user who had none |
| `Registry.BindKeepsFirstConnection` | src/Server/WebSocketServer.php:87-252 | binding a new fd to an already-bound user changes no user's first match |
| `Registry.Closed` | src/Server/WebSocketServer.php:189-192 | the binding is removed only when the bound user id is truthy |
| `Server.Rejection.Code` | src/Server/WebSocketServer.php:53-93 | no contract of its own; the close codes 4000, 4000, 4001, 4002, which `HandshakeOutcome` states |
| `Server.Rejection.Reason` | src/Server/WebSocketServer.php:53-93 | no contract of its own; the close reasons, which `HandshakeOutcome` states |
| `Server.HeaderGate` | src/Server/WebSocketServer.php:52-83 | ordered checks: missing user id, then missing or mismatched app id, then empty token; each fails with its own rejection |
| `Server.CheckToken` | src/Server/WebSocketServer.php:227-241 | a live cache entry answers without decoding; a miss decodes and caches only a success; a failure is never cached |
| `Server.VerifiedTokenIsCached` | src/Server/WebSocketServer.php:229-238 | a token just decoded is served from the cache, without a second decode, for `ttl` seconds |
| `Server.CacheHitIgnoresDecoder` | src/Server/WebSocketServer.php:229-233 | a cache hit does not depend on the decoder: a stale token stays valid until its entry expires |
| `Server.HandleOpen` | src/Server/WebSocketServer.php:46-103 | at most one action; success binds the fd to the header's user id; a refusal is one disconnect of this fd and leaves the registry unchanged |
| `Server.HandshakeOutcome` | src/Server/WebSocketServer.php:46-97 | first failing check closes with 4000/4000/4001/4002 and leaves the registry unchanged; success binds the fd to the user and emits nothing |
| `Server.ShippedConfigRejectsEveryClient` | src/Server/WebSocketServer.php:63-72 | with no `app_id` in the configuration, every client with a user id is closed with 4000 "Invalid app id!" |
| `Server.ConfiguredAppIdAdmits` | src/Server/WebSocketServer.php:63-87 | with an app id configured, matching headers and a verifying token bind the fd |
| `Server.CloseKeepsOtherBindings` | src/Server/WebSocketServer.php:187-192 | closing removes at most the closing fd's binding, and only for a truthy user id |
| `Server.Delivery` | src/Server/WebSocketServer.php:250-260 | at most one push, none for the sender or an unbound user; every push goes to a non-zero established fd with the sender id and content |
| `Server.BroadcastTo` | src/Server/WebSocketServer.php:249-261 | at most one push per participant, each to a non-zero established fd with the sender id and content |
| `Server.Broadcast` | src/Server/WebSocketServer.php:243-262 | nothing for a missing room; at most one push per participant, each carrying the sender id and content |
| `Server.DeliveryTargets` | src/Server/WebSocketServer.php:250-260 | a participant is pushed to iff it is not the sender and its first fd is non-zero and established |
| `Server.BroadcastToTargets` | src/Server/WebSocketServer.php:249-261 | the pushes are exactly those reaching the participants |
| `Server.BroadcastSkipsSender` | src/Server/WebSocketServer.php:250 | the sender's connection never receives its own message; each push carries the sender id and content |
| `Server.OnlyFirstConnectionReached` | src/Server/WebSocketServer.php:252-254 | a user's later-bound connection never receives a broadcast |
| `Server.SearchFdDistinct` | src/Server/WebSocketServer.php:252 | with unique fds, two different users are found on two different fds |
| `Server.BroadcastToDistinctFds` | src/Server/WebSocketServer.php:249-261 | a participant list without duplicates never pushes twice to one fd |
| `Server.BroadcastOncePerFd` | src/Server/WebSocketServer.php:243-262 | in well-formed rooms with unique fds, a broadcast pushes to each fd at most once |
| `Server.BroadcastToSameSearch` | src/Server/WebSocketServer.php:249-261 | two registries with the same first matches give the same pushes |
| `Server.SecondConnectionChangesNoBroadcast` | src/Server/WebSocketServer.php:87-254 | a second connection opened by a connected user changes no broadcast: the first connection keeps receiving and the new one gets nothing |
| `Server.Fault.Text` | src/Server/WebSocketServer.php:173-183 | no contract of its own; the error texts pushed back to the sender, which the message lemmas state |
| `Server.Dispatch` | src/Server/WebSocketServer.php:123-174 | an unknown or missing type is "Invalid message type!"; success needs a room id and a bound user; only join and leave change the rooms; chat needs membership |
| `Server.HandleMessage` | src/Server/WebSocketServer.php:105-185 | at most one decode; a refused frame changes neither rooms nor cache |
| `Server.InvalidFrameReplies` | src/Server/WebSocketServer.php:109 | a refused frame gets the validator's error text back and changes nothing |
| `Server.FrameTokenRequired` | src/Server/WebSocketServer.php:112 | a frame without a verifying token gets one error reply and leaves the rooms unchanged |
| `Server.NonMemberCannotPost` | src/Server/WebSocketServer.php:158-164 | a non-member's room message yields only "User not in room!" to the sender |
| `Server.RoomRequestsAcknowledged` | src/Server/WebSocketServer.php:124-157 | join/leave update the rooms and reply only to the sender with `joined_room`/`left_room` and the room id |
| `Server.DispatchShape` | src/Server/WebSocketServer.php:123-174 | a routed frame is either an acknowledged join/leave or chat pushes to other connections |
| `Server.FaultsReplyOnce` | src/Server/WebSocketServer.php:175-184 | any fault is one error push to the sender and nothing else; no handled frame disconnects |
| `Server.RoutingIsolation` | src/Server/WebSocketServer.php:123-174 | chat never returns to the sender; rooms change only with a join/leave acknowledgement |
| `Server.BroadcastCarriesRawContent` | src/Server/WebSocketServer.php:109-110 | broadcast content is the frame's raw content, which differs from the escaped copy when it holds special characters |
| `Server.WebSocketServer.constructor` | src/Server/WebSocketServer.php:22-34 | empty rooms, cache and registry; a 300-second cache TTL; the configured app id as given, `ShippedAppId` (none) for the shipped configuration |
| `Server.WebSocketServer.ValidateToken` | src/Server/WebSocketServer.php:227-241 | result and cache as `CheckToken`; the decoder is called exactly on a miss |
| `Server.WebSocketServer.OnOpen` | src/Server/WebSocketServer.php:46-103 | registry, cache and actions as `HandleOpen` |
| `Server.WebSocketServer.OnClose` | src/Server/WebSocketServer.php:187-199 | registry as `Closed`; rooms and cache unchanged |
| `Server.WebSocketServer.SendMessage` | src/Server/WebSocketServer.php:243-262 | the pushes equal `Broadcast` of the current rooms and registry |
| `Server.WebSocketServer.OnMessage` | src/Server/WebSocketServer.php:105-185 | rooms, cache and actions as `HandleMessage`; the registry is untouched |

## Left out

- Logging (`Log::info`, `Log::error`), `onStart` and its `echo`: output only. `src/Utils/Log.php` is not part of this model.
- JSON: decoding is the `parse` parameter. It yields only the fields the server reads (`type`, `content`, `metadata.roomId`, `token`). Pushed payloads are `Payload` values, not JSON text. The sanitized `json_encode` result of the type phase is the sanitized `Message`.
- The JSON-Schema check is the `schemaErrors` parameter. The schema file is not part of this model.
- Strict base64 decoding and `finfo` sniffing are parameters. The second, non-strict `base64_decode` is taken to give the same bytes as the strict one that passed.
- `JWT::decode` with the HS256 secret (RFC 7519, section 3.2 of RFC 7518) is the `decode` parameter. `src/Utils/JWTUtils.php` is not part of this model.
- The clock is one `now` per event. The source calls `time()` separately in `get` and `set`.
- The transport: `push` and `disconnect` are returned actions, `isEstablished` is the set `established`, and `connection_info` (used for logging) is left out.
- Multi-worker memory isolation and concurrency: each handler is one atomic step.
- PHP loose typing. Non-string JSON values for `type`, `content`, `metadata.roomId` and `token` are not modelled. Neither are a non-object `metadata`, numeric-string array keys, or the loose `==` in `sendMessage` and `switch`.
- The TypeError texts omit PHP's trailing ", called in <file> on line <n>".
- `htmlspecialchars` on invalid UTF-8: decoded JSON strings are always valid UTF-8, so that path is not modelled.
- The lazy static initialisers `getMessageSchema` and `getFinfoInstance`, and the "Message schema not found" failure at construction.
- `setConfig`, `start`, `config/swoole.php` and `public/index.php`: configuration and bootstrap. Only the missing `app_id` key matters to the core (see Findings).

## Findings

| source | as written | input that shows it | evidently intended | confidence | as-written member | corrected member |
|---|---|---|---|---|---|---|
| src/Server/WebSocketServer.php:63 | compares the `app-id` header with `$this->config['app_id']`, but the configuration array loaded from config/swoole.php has no `app_id` key, so the right side is `null` and `$appId !== null` holds for every sent header | any handshake with `user-id: u`, `app-id: x`, any token: closed 4000 "Invalid app id!" | the header is compared with a configured application id, and matching clients proceed to token validation | high, not executed | `Server.ShippedConfigRejectsEveryClient` | `Server.ConfiguredAppIdAdmits` |
