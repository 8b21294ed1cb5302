/**
  The connection handler (src/Server/WebSocketServer.php).

  The server reacts to three transport events: a connection opens (with its
  request headers), a frame arrives, a connection closes. Each handler runs
  to completion. Socket effects are returned as a list of actions (a push of
  a JSON payload to a connection, or a disconnect with a close code), the
  transport's "is this connection established" answer is the set
  `established`, and the clock is the parameter `now`.

  Each handler is a method on `WebSocketServer` whose postcondition ties the
  new state and the actions to a pure function of the old state
  (`HandleOpen`, `HandleMessage`, `Closed`); the properties of the server are
  lemmas about those functions.
*/
module Server {
  import opened Wrappers
  import opened Rooms
  import opened Tokens
  import opened Validation
  import opened Registry

  /** The headers `onOpen` reads; `None` for a header that was not sent. */
  datatype Headers = Headers(userId: Option<UserId>, appId: Option<string>, token: Option<string>)

  /** The reasons a handshake is refused, each closing the connection. */
  datatype Rejection = MissingUser | BadApp | MissingToken | InvalidToken {
    function Code(): int {
      match this
      case MissingUser => 4000
      case BadApp => 4000
      case MissingToken => 4001
      case InvalidToken => 4002
    }

    function Reason(): string {
      match this
      case MissingUser => "Invalid user id!"
      case BadApp => "Invalid app id!"
      case MissingToken => "Token not provided!"
      case InvalidToken => "Invalid token!"
    }
  }

  /** The JSON objects the server pushes. */
  datatype Payload =
    | JoinedRoom(roomId: RoomId)
    | LeftRoom(roomId: RoomId)
    | Chat(userId: UserId, content: string)
    | ErrorReply(error: string)

  datatype Action = Push(fd: Fd, payload: Payload) | Disconnect(fd: Fd, code: int, reason: string)

  /**
    The server's configuration: the application id (`$this->config['app_id']`,
    `None` when the configuration has no such key), `JWT::decode` with the
    configured HS256 secret, the validator's libraries, and the cache TTL.
  */
  datatype Config = Config(
    appId: Option<string>,
    decode: string -> Result<Claims, string>,
    ext: Externals,
    ttl: int)

  // ----- handshake -----

  /** PHP's `empty()` on a header value: absent, "" and "0" are empty. */
  predicate EmptyHeader(t: Option<string>) {
    t.None? || t.value == "" || t.value == "0"
  }

  /**
    The header checks of `onOpen`, in order, before the token is verified.
    On success: the user id and the token to verify.
  */
  function HeaderGate(h: Headers, appId: Option<string>): (r: Result<(UserId, string), Rejection>)
    ensures r == Failure(MissingUser) <==> h.userId.None?
    ensures r == Failure(BadApp) <==> h.userId.Some? && (h.appId.None? || h.appId != appId)
    ensures r == Failure(MissingToken) <==> h.userId.Some? && h.appId.Some? && h.appId == appId && EmptyHeader(h.token)
    ensures r.Failure? ==> r.error != InvalidToken
    ensures r.Success? ==> h.userId.Some? && h.token.Some? && r.value == (h.userId.value, h.token.value)
  {
    if h.userId.None? then Failure(MissingUser)
    else if h.appId.None? || h.appId != appId then Failure(BadApp)
    else if EmptyHeader(h.token) then Failure(MissingToken)
    else Success((h.userId.value, h.token.value))
  }

  // ----- validateToken -----

  /** The claims or the decoder's error, the cache afterwards, and whether `JWT::decode` ran. */
  datatype TokenOutcome = TokenOutcome(result: Result<Claims, string>, cache: CacheMap, decoded: bool)

  /** Model of `validateToken`: the cache first; on a miss, decode, and cache only a success. */
  function CheckToken(cache: CacheMap, jwt: string, now: int, ttl: int, decode: string -> Result<Claims, string>): (o: TokenOutcome)
    ensures o.decoded <==> Fetched(cache, jwt, now).None?
    ensures !o.decoded ==> o.result == Success(cache[jwt].data) && o.cache == cache
    ensures o.decoded ==> o.result == decode(jwt)
    ensures o.decoded && o.result.Success? ==> o.cache == Stored(AfterFetch(cache, jwt, now), jwt, o.result.value, now, ttl)
    ensures o.result.Failure? ==> o.cache == AfterFetch(cache, jwt, now) && jwt !in o.cache
  {
    match Fetched(cache, jwt, now)
    case Some(claims) => TokenOutcome(Success(claims), AfterFetch(cache, jwt, now), false)
    case None =>
      var evicted := AfterFetch(cache, jwt, now);
      match decode(jwt)
      case Success(claims) => TokenOutcome(Success(claims), Stored(evicted, jwt, claims, now, ttl), true)
      case Failure(e) => TokenOutcome(Failure(e), evicted, true)
  }

  /**
    A token that was just verified is served from the cache for the next
    `ttl` seconds: the same claims, and no second decode.
  */
  lemma VerifiedTokenIsCached(cache: CacheMap, jwt: string, now: int, later: int, ttl: int,
                              decode: string -> Result<Claims, string>)
    requires ttl > 0 && now <= later < now + ttl
    requires CheckToken(cache, jwt, now, ttl, decode).decoded
    requires CheckToken(cache, jwt, now, ttl, decode).result.Success?
    ensures var first := CheckToken(cache, jwt, now, ttl, decode);
      var second := CheckToken(first.cache, jwt, later, ttl, decode);
      !second.decoded && second.result == first.result && second.cache == first.cache
  {
  }

  /**
    A cache hit answers without consulting the decoder: a token that would no
    longer verify is still accepted until its cache entry expires.
  */
  lemma CacheHitIgnoresDecoder(cache: CacheMap, jwt: string, now: int, ttl: int,
                               d1: string -> Result<Claims, string>, d2: string -> Result<Claims, string>)
    requires Fetched(cache, jwt, now).Some?
    ensures CheckToken(cache, jwt, now, ttl, d1) == CheckToken(cache, jwt, now, ttl, d2)
    ensures CheckToken(cache, jwt, now, ttl, d1).result.Success?
  {
  }

  // ----- onOpen -----

  datatype OpenOutcome = OpenOutcome(registry: FdMap, cache: CacheMap, decodes: seq<string>, out: seq<Action>)

  /** Model of `onOpen`. */
  function HandleOpen(reg: FdMap, cache: CacheMap, fd: Fd, h: Headers, now: int, cfg: Config): (o: OpenOutcome)
    ensures |o.out| <= 1 && |o.decodes| <= 1
    ensures o.out == [] ==> Lookup(o.registry, fd) == h.userId
    ensures o.out != [] ==> o.registry == reg && o.out[0].Disconnect? && o.out[0].fd == fd
  {
    match HeaderGate(h, cfg.appId)
    case Failure(rejection) => OpenOutcome(reg, cache, [], [Disconnect(fd, rejection.Code(), rejection.Reason())])
    case Success((user, token)) =>
      var o := CheckToken(cache, token, now, cfg.ttl, cfg.decode);
      var decodes := if o.decoded then [token] else [];
      if o.result.Failure? then
        OpenOutcome(reg, o.cache, decodes, [Disconnect(fd, InvalidToken.Code(), InvalidToken.Reason())])
      else
        OpenOutcome(Bind(reg, fd, user), o.cache, decodes, [])
  }

  /**
    The handshake stops at the first failing check and closes the connection
    with that check's code; the registry changes only when every check
    passes, and then binds exactly this fd to the header's user id.
  */
  lemma HandshakeOutcome(reg: FdMap, cache: CacheMap, fd: Fd, h: Headers, now: int, cfg: Config)
    ensures var o := HandleOpen(reg, cache, fd, h, now, cfg);
      && (h.userId.None? ==> o.out == [Disconnect(fd, 4000, "Invalid user id!")] && o.cache == cache)
      && (h.userId.Some? && (h.appId.None? || h.appId != cfg.appId) ==>
            o.out == [Disconnect(fd, 4000, "Invalid app id!")] && o.cache == cache)
      && (h.userId.Some? && h.appId.Some? && h.appId == cfg.appId && EmptyHeader(h.token) ==>
            o.out == [Disconnect(fd, 4001, "Token not provided!")] && o.cache == cache)
      && (h.userId.Some? && h.appId.Some? && h.appId == cfg.appId && !EmptyHeader(h.token) ==>
            var t := CheckToken(cache, h.token.value, now, cfg.ttl, cfg.decode);
            o.cache == t.cache &&
            if t.result.Failure? then o.out == [Disconnect(fd, 4002, "Invalid token!")]
            else o.out == [])
      && (o.out == [] <==> HeaderGate(h, cfg.appId).Success? && CheckToken(cache, h.token.value, now, cfg.ttl, cfg.decode).result.Success?)
      && (o.out != [] ==> o.registry == reg && |o.out| == 1 && o.out[0].Disconnect? && o.out[0].fd == fd)
      && (o.out == [] ==> o.registry == Bind(reg, fd, h.userId.value))
  {
  }

  /** The configuration file as shipped has no `app_id` key, so the configured id is `null`. */
  const ShippedAppId: Option<string> := None

  /**
    With the shipped configuration every client that sends a user id is
    refused with 4000 "Invalid app id!", whatever app id and token it sends.
  */
  lemma ShippedConfigRejectsEveryClient(reg: FdMap, cache: CacheMap, fd: Fd, h: Headers, now: int, cfg: Config)
    requires cfg.appId == ShippedAppId
    requires h.userId.Some?
    ensures HandleOpen(reg, cache, fd, h, now, cfg) == OpenOutcome(reg, cache, [], [Disconnect(fd, 4000, "Invalid app id!")])
  {
  }

  /**
    With an application id configured, a client that sends it, a user id and
    a token that verifies is admitted and bound.
  */
  lemma ConfiguredAppIdAdmits(reg: FdMap, cache: CacheMap, fd: Fd, h: Headers, now: int, cfg: Config, app: string)
    requires cfg.appId == Some(app)
    requires h.userId.Some? && h.appId == Some(app) && !EmptyHeader(h.token)
    requires CheckToken(cache, h.token.value, now, cfg.ttl, cfg.decode).result.Success?
    ensures HandleOpen(reg, cache, fd, h, now, cfg).out == []
    ensures Lookup(HandleOpen(reg, cache, fd, h, now, cfg).registry, fd) == h.userId
  {
  }

  // ----- onClose -----

  /**
    Closing removes at most the closing fd's binding: every other fd keeps
    its user. A binding whose user id is "" or "0" is never removed.
  */
  lemma CloseKeepsOtherBindings(reg: FdMap, fd: Fd)
    requires UniqueFds(reg)
    ensures UniqueFds(Closed(reg, fd))
    ensures forall f :: f != fd ==> Lookup(Closed(reg, fd), f) == Lookup(reg, f)
    ensures Lookup(reg, fd).Some? && Truthy(Lookup(reg, fd).value) ==> Lookup(Closed(reg, fd), fd) == None
    ensures Lookup(reg, fd).Some? && !Truthy(Lookup(reg, fd).value) ==> Lookup(Closed(reg, fd), fd) == Lookup(reg, fd)
  {
    UnbindKeepsOthers(reg, fd);
  }

  // ----- sendMessage -----

  /** What one participant gets: nothing for the sender, else a push to its first fd if that fd is non-zero and established. */
  function Delivery(u: UserId, sender: UserId, content: string, reg: FdMap, established: set<Fd>): (out: seq<Action>)
    ensures |out| <= 1
    ensures u == sender || SearchFd(reg, u).None? ==> out == []
    ensures forall a :: a in out ==> a.Push? && a.fd != 0 && a.fd in established && a.payload == Chat(sender, content)
  {
    if u == sender then []
    else match SearchFd(reg, u)
      case Some(f) => if f != 0 && f in established then [Push(f, Chat(sender, content))] else []
      case None => []
  }

  /** The pushes for a list of participants, in their order. */
  function BroadcastTo(ps: seq<UserId>, sender: UserId, content: string, reg: FdMap, established: set<Fd>): (out: seq<Action>)
    ensures |out| <= |ps|
    ensures forall a :: a in out ==> a.Push? && a.fd != 0 && a.fd in established && a.payload == Chat(sender, content)
  {
    if ps == [] then []
    else BroadcastTo(ps[..|ps| - 1], sender, content, reg, established)
         + Delivery(ps[|ps| - 1], sender, content, reg, established)
  }

  /** Model of `sendMessage`: the room's participants, or nothing for a missing or empty room. */
  function Broadcast(rooms: RoomMap, r: RoomId, sender: UserId, content: string, reg: FdMap, established: set<Fd>): (out: seq<Action>)
    ensures r !in rooms ==> out == []
    ensures r in rooms ==> |out| <= |rooms[r]|
    ensures forall a :: a in out ==> a.Push? && a.fd != 0 && a.fd in established && a.payload == Chat(sender, content)
  {
    match Participants(rooms, r)
    case None => []
    case Some(ps) => BroadcastTo(ps, sender, content, reg, established)
  }

  /** The push a participant gets, if any. */
  ghost predicate Reaches(u: UserId, sender: UserId, content: string, reg: FdMap, established: set<Fd>, a: Action) {
    u != sender && SearchFd(reg, u).Some? && SearchFd(reg, u).value != 0
    && SearchFd(reg, u).value in established && a == Push(SearchFd(reg, u).value, Chat(sender, content))
  }

  lemma DeliveryTargets(u: UserId, sender: UserId, content: string, reg: FdMap, established: set<Fd>)
    ensures forall a :: a in Delivery(u, sender, content, reg, established) <==> Reaches(u, sender, content, reg, established, a)
  {
  }

  /**
    A broadcast pushes exactly to the first established, non-zero fd of each
    participant other than the sender, always with the sender's id and the
    content as given.
  */
  lemma {:induction false} BroadcastToTargets(ps: seq<UserId>, sender: UserId, content: string, reg: FdMap, established: set<Fd>)
    ensures forall a :: a in BroadcastTo(ps, sender, content, reg, established) <==>
      exists u :: u in ps && Reaches(u, sender, content, reg, established, a)
  {
    if ps != [] {
      var init, last := ps[..|ps| - 1], ps[|ps| - 1];
      BroadcastToTargets(init, sender, content, reg, established);
      DeliveryTargets(last, sender, content, reg, established);
      assert ps == init + [last];
      forall a ensures a in BroadcastTo(ps, sender, content, reg, established) <==>
        exists u :: u in ps && Reaches(u, sender, content, reg, established, a)
      {
        if a in BroadcastTo(ps, sender, content, reg, established) {
          if a in BroadcastTo(init, sender, content, reg, established) {
            var u :| u in init && Reaches(u, sender, content, reg, established, a);
            assert u in ps;
          } else {
            assert last in ps;
          }
        }
        if exists u :: u in ps && Reaches(u, sender, content, reg, established, a) {
          var u :| u in ps && Reaches(u, sender, content, reg, established, a);
          if u != last {
            assert u in init;
          }
        }
      }
    }
  }

  /** The sender's own connection never receives the broadcast. */
  lemma BroadcastSkipsSender(rooms: RoomMap, r: RoomId, fd: Fd, content: string, reg: FdMap, established: set<Fd>)
    requires UniqueFds(reg) && Lookup(reg, fd).Some?
    ensures forall a :: a in Broadcast(rooms, r, Lookup(reg, fd).value, content, reg, established) ==>
      a.Push? && a.fd != fd && a.payload == Chat(Lookup(reg, fd).value, content)
  {
    var sender := Lookup(reg, fd).value;
    if r in rooms {
      BroadcastToTargets(rooms[r], sender, content, reg, established);
      forall a | a in Broadcast(rooms, r, sender, content, reg, established)
        ensures a.Push? && a.fd != fd && a.payload == Chat(sender, content)
      {
        var u :| u in rooms[r] && Reaches(u, sender, content, reg, established, a);
        var i :| 0 <= i < |reg| && reg[i] == Binding(a.fd, u);
      }
    }
  }

  /**
    `array_search` stops at the first match: when a user is bound to two
    connections, the later-bound one never receives a broadcast.
  */
  lemma OnlyFirstConnectionReached(rooms: RoomMap, r: RoomId, sender: UserId, content: string, reg: FdMap,
                                   established: set<Fd>, i: nat, j: nat)
    requires UniqueFds(reg)
    requires i < j < |reg| && reg[i].userId == reg[j].userId
    ensures forall a :: a in Broadcast(rooms, r, sender, content, reg, established) ==> a.fd != reg[j].fd
  {
    if r in rooms {
      BroadcastToTargets(rooms[r], sender, content, reg, established);
      forall a | a in Broadcast(rooms, r, sender, content, reg, established) ensures a.fd != reg[j].fd {
        var u :| u in rooms[r] && Reaches(u, sender, content, reg, established, a);
        var k :| 0 <= k < |reg| && reg[k] == Binding(a.fd, u) && forall m :: 0 <= m < k ==> reg[m].userId != u;
        assert a.fd == reg[j].fd ==> k == j;
      }
    }
  }

  /** Two participants that are different users are reached on different connections. */
  lemma SearchFdDistinct(reg: FdMap, u: UserId, v: UserId)
    requires UniqueFds(reg) && u != v
    requires SearchFd(reg, u).Some? && SearchFd(reg, v).Some?
    ensures SearchFd(reg, u).value != SearchFd(reg, v).value
  {
    var i :| 0 <= i < |reg| && reg[i] == Binding(SearchFd(reg, u).value, u);
    var k :| 0 <= k < |reg| && reg[k] == Binding(SearchFd(reg, v).value, v);
    assert i != k;
  }

  /** No two actions address the same connection. */
  ghost predicate DistinctFds(out: seq<Action>) {
    forall i, j :: 0 <= i < j < |out| ==> out[i].fd != out[j].fd
  }

  /** In a room without duplicate members, no connection is pushed to twice. */
  lemma {:induction false} BroadcastToDistinctFds(ps: seq<UserId>, sender: UserId, content: string, reg: FdMap,
                                                  established: set<Fd>)
    requires NoDup(ps) && UniqueFds(reg)
    ensures DistinctFds(BroadcastTo(ps, sender, content, reg, established))
  {
    if ps != [] {
      var init, last := ps[..|ps| - 1], ps[|ps| - 1];
      assert NoDup(init) by {
        forall i, j | 0 <= i < j < |init| ensures init[i] != init[j] {
          assert init[i] == ps[i] && init[j] == ps[j];
        }
      }
      assert last !in init by {
        forall k | 0 <= k < |init| ensures init[k] != last { assert init[k] == ps[k]; }
      }
      BroadcastToDistinctFds(init, sender, content, reg, established);
      BroadcastToTargets(init, sender, content, reg, established);
      DeliveryTargets(last, sender, content, reg, established);
      var front := BroadcastTo(init, sender, content, reg, established);
      var d := Delivery(last, sender, content, reg, established);
      var out := front + d;
      assert DistinctFds(front);
      forall i, j | 0 <= i < j < |out| ensures out[i].fd != out[j].fd {
        if j >= |front| {
          assert i < |front| && out[j] == d[0] && d[0] in d;
          assert Reaches(last, sender, content, reg, established, d[0]);
          assert out[i] == front[i] && front[i] in front;
          var u :| u in init && Reaches(u, sender, content, reg, established, front[i]);
          SearchFdDistinct(reg, u, last);
          assert front[i].fd == SearchFd(reg, u).value && d[0].fd == SearchFd(reg, last).value;
        } else {
          assert out[i] == front[i] && out[j] == front[j];
          assert front[i].fd != front[j].fd;
        }
      }
    }
  }

  /** A room's broadcast pushes to each connection at most once. */
  lemma BroadcastOncePerFd(rooms: RoomMap, r: RoomId, sender: UserId, content: string, reg: FdMap, established: set<Fd>)
    requires WellFormed(rooms) && UniqueFds(reg)
    ensures DistinctFds(Broadcast(rooms, r, sender, content, reg, established))
  {
    if r in rooms {
      assert NoDup(rooms[r]);
      assert Broadcast(rooms, r, sender, content, reg, established) == BroadcastTo(rooms[r], sender, content, reg, established);
      BroadcastToDistinctFds(rooms[r], sender, content, reg, established);
    }
  }

  /** A broadcast depends on the registry only through `array_search`. */
  lemma {:induction false} BroadcastToSameSearch(ps: seq<UserId>, sender: UserId, content: string,
                                                 reg1: FdMap, reg2: FdMap, established: set<Fd>)
    requires forall v :: SearchFd(reg1, v) == SearchFd(reg2, v)
    ensures BroadcastTo(ps, sender, content, reg1, established) == BroadcastTo(ps, sender, content, reg2, established)
  {
    if ps != [] {
      BroadcastToSameSearch(ps[..|ps| - 1], sender, content, reg1, reg2, established);
      assert SearchFd(reg1, ps[|ps| - 1]) == SearchFd(reg2, ps[|ps| - 1]);
    }
  }

  /**
    When a user who is already connected opens a second connection, every
    broadcast still goes where it went before: the first connection keeps
    receiving, the new one receives nothing.
  */
  lemma SecondConnectionChangesNoBroadcast(reg: FdMap, cache: CacheMap, fd: Fd, h: Headers, now: int, cfg: Config,
                                           rooms: RoomMap, r: RoomId, sender: UserId, content: string, established: set<Fd>)
    requires Lookup(reg, fd).None? && h.userId.Some? && SearchFd(reg, h.userId.value).Some?
    ensures var reg' := HandleOpen(reg, cache, fd, h, now, cfg).registry;
      Broadcast(rooms, r, sender, content, reg', established) == Broadcast(rooms, r, sender, content, reg, established)
  {
    var reg' := HandleOpen(reg, cache, fd, h, now, cfg).registry;
    if reg' != reg {
      assert reg' == Bind(reg, fd, h.userId.value);
      BindKeepsFirstConnection(reg, fd, h.userId.value);
      if r in rooms {
        BroadcastToSameSearch(rooms[r], sender, content, reg', reg, established);
      }
    }
  }

  // ----- onMessage -----

  /** Exceptions raised while handling a frame; their text is pushed back to the sender. */
  datatype Fault =
    | Rejected(error: ValidationError)
    /** PHP's TypeError for `null` passed to a `string` parameter. */
    | NullArgument(callee: string, position: nat, param: string)
    | TokenError(message: string)
    | NotInRoom
    | UnknownType
  {
    function Text(): string {
      match this
      case Rejected(e) => e.Text()
      case NullArgument(callee, position, param) =>
        callee + "(): Argument #" + NatText(position) + " ($" + param + ") must be of type string, null given"
      case TokenError(message) => message
      case NotInRoom => "User not in room!"
      case UnknownType => "Invalid message type!"
    }
  }

  function NatText(n: nat): string
    decreases n
  {
    if n < 10 then [(48 + n) as char] else NatText(n / 10) + [(48 + n % 10) as char]
  }

  predicate IsBroadcastType(t: string) {
    t == TextMessage || t == Image || t == Document || t == Notification
  }

  /** The room change and the pushes of a successfully routed frame. */
  datatype Routed = Routed(rooms: RoomMap, out: seq<Action>)

  /** Model of the `switch` in `onMessage`, once the frame and its token are accepted. */
  function Dispatch(msg: Message, user: Option<UserId>, rooms: RoomMap, fd: Fd, reg: FdMap, established: set<Fd>): (r: Result<Routed, Fault>)
    ensures msg.msgType.None? || !IsKnownType(msg.msgType.value) ==> r == Failure(UnknownType)
    ensures r.Success? ==> msg.roomId.Some? && user.Some?
    ensures r.Success? && r.value.rooms != rooms ==> msg.msgType == Some(JoinRoom) || msg.msgType == Some(LeaveRoom)
    ensures r.Success? && msg.msgType.Some? && IsBroadcastType(msg.msgType.value) ==> Member(rooms, msg.roomId.value, user.value)
  {
    if msg.msgType == Some(JoinRoom) then
      if msg.roomId.None? then Failure(NullArgument("Src\\Server\\RoomManager::joinRoom", 1, "roomId"))
      else if user.None? then Failure(NullArgument("Src\\Server\\RoomManager::joinRoom", 2, "userId"))
      else Success(Routed(Joined(rooms, msg.roomId.value, user.value), [Push(fd, JoinedRoom(msg.roomId.value))]))
    else if msg.msgType == Some(LeaveRoom) then
      if msg.roomId.None? then Failure(NullArgument("Src\\Server\\RoomManager::leaveRoom", 1, "roomId"))
      else if user.None? then Failure(NullArgument("Src\\Server\\RoomManager::leaveRoom", 2, "userId"))
      else Success(Routed(Left(rooms, msg.roomId.value, user.value), [Push(fd, LeftRoom(msg.roomId.value))]))
    else if msg.msgType.Some? && IsBroadcastType(msg.msgType.value) then
      if msg.roomId.None? then Failure(NullArgument("Src\\Server\\RoomManager::isUserInRoom", 1, "roomId"))
      else if user.None? then Failure(NullArgument("Src\\Server\\RoomManager::isUserInRoom", 2, "userId"))
      else if !Member(rooms, msg.roomId.value, user.value) then Failure(NotInRoom)
      else if msg.content.None? then Failure(NullArgument("Src\\Server\\WebSocketServer::sendMessage", 3, "message"))
      else Success(Routed(rooms, Broadcast(rooms, msg.roomId.value, user.value, msg.content.value, reg, established)))
    else
      Failure(UnknownType)
  }

  datatype MessageOutcome = MessageOutcome(rooms: RoomMap, cache: CacheMap, decodes: seq<string>, out: seq<Action>)

  /** The single push that reports a fault to the sender. */
  function Reply(fd: Fd, f: Fault): seq<Action> {
    [Push(fd, ErrorReply(f.Text()))]
  }

  /**
    Model of `onMessage`: validate, re-decode the RAW frame (the validator's
    sanitized copy is not what the server uses), verify the frame's own
    `token`, then route. Any fault becomes one error push to the sender.
  */
  function HandleMessage(reg: FdMap, rooms: RoomMap, cache: CacheMap, fd: Fd, raw: string, now: int,
                         established: set<Fd>, cfg: Config): (o: MessageOutcome)
    ensures |o.decodes| <= 1
    ensures Validate(raw, cfg.ext).Failure? ==> o.rooms == rooms && o.cache == cache && o.decodes == []
  {
    match Validate(raw, cfg.ext)
    case Failure(e) => MessageOutcome(rooms, cache, [], Reply(fd, Rejected(e)))
    case Success(validated) =>
      var msg := cfg.ext.parse(validated).value;
      match msg.token
      case None => MessageOutcome(rooms, cache, [], Reply(fd, NullArgument("Src\\Server\\WebSocketServer::validateToken", 1, "jwt")))
      case Some(jwt) =>
        var t := CheckToken(cache, jwt, now, cfg.ttl, cfg.decode);
        var decodes := if t.decoded then [jwt] else [];
        if t.result.Failure? then MessageOutcome(rooms, t.cache, decodes, Reply(fd, TokenError(t.result.error)))
        else match Dispatch(msg, Lookup(reg, fd), rooms, fd, reg, established)
          case Failure(f) => MessageOutcome(rooms, t.cache, decodes, Reply(fd, f))
          case Success(routed) => MessageOutcome(routed.rooms, t.cache, decodes, routed.out)
  }

  /** A frame the validator refuses gets its error text back and changes nothing. */
  lemma InvalidFrameReplies(reg: FdMap, rooms: RoomMap, cache: CacheMap, fd: Fd, raw: string, now: int,
                            established: set<Fd>, cfg: Config)
    requires Validate(raw, cfg.ext).Failure?
    ensures HandleMessage(reg, rooms, cache, fd, raw, now, established, cfg)
         == MessageOutcome(rooms, cache, [], [Push(fd, ErrorReply(Validate(raw, cfg.ext).error.Text()))])
  {
  }

  /**
    Every frame must carry a token that verifies now, even on an
    authenticated connection: without one, or with one that fails, the frame
    is answered with an error and the rooms are untouched.
  */
  lemma FrameTokenRequired(reg: FdMap, rooms: RoomMap, cache: CacheMap, fd: Fd, raw: string, now: int,
                           established: set<Fd>, cfg: Config)
    requires Validate(raw, cfg.ext).Success?
    requires var msg := cfg.ext.parse(raw).value;
      msg.token.None? || CheckToken(cache, msg.token.value, now, cfg.ttl, cfg.decode).result.Failure?
    ensures var o := HandleMessage(reg, rooms, cache, fd, raw, now, established, cfg);
      o.rooms == rooms && |o.out| == 1 && o.out[0].fd == fd && o.out[0].payload.ErrorReply?
  {
  }

  /** A member-only frame from someone not in the room is answered "User not in room!" and nobody else hears of it. */
  lemma NonMemberCannotPost(reg: FdMap, rooms: RoomMap, cache: CacheMap, fd: Fd, raw: string, now: int,
                            established: set<Fd>, cfg: Config)
    requires Validate(raw, cfg.ext).Success?
    requires var msg := cfg.ext.parse(raw).value;
      && msg.token.Some? && CheckToken(cache, msg.token.value, now, cfg.ttl, cfg.decode).result.Success?
      && msg.msgType.Some? && IsBroadcastType(msg.msgType.value)
      && msg.roomId.Some? && Lookup(reg, fd).Some?
      && !Member(rooms, msg.roomId.value, Lookup(reg, fd).value)
    ensures var o := HandleMessage(reg, rooms, cache, fd, raw, now, established, cfg);
      o.rooms == rooms && o.out == [Push(fd, ErrorReply("User not in room!"))]
  {
  }

  /** `join_room` and `leave_room` update the rooms and acknowledge to the sender only. */
  lemma RoomRequestsAcknowledged(reg: FdMap, rooms: RoomMap, cache: CacheMap, fd: Fd, raw: string, now: int,
                                 established: set<Fd>, cfg: Config)
    requires Validate(raw, cfg.ext).Success?
    requires var msg := cfg.ext.parse(raw).value;
      && msg.token.Some? && CheckToken(cache, msg.token.value, now, cfg.ttl, cfg.decode).result.Success?
      && (msg.msgType == Some(JoinRoom) || msg.msgType == Some(LeaveRoom))
      && msg.roomId.Some? && Lookup(reg, fd).Some?
    ensures var msg := cfg.ext.parse(raw).value;
      var r, u := msg.roomId.value, Lookup(reg, fd).value;
      var o := HandleMessage(reg, rooms, cache, fd, raw, now, established, cfg);
      if msg.msgType == Some(JoinRoom) then
        o.rooms == Joined(rooms, r, u) && Member(o.rooms, r, u) && o.out == [Push(fd, JoinedRoom(r))]
      else
        o.rooms == Left(rooms, r, u) && !Member(o.rooms, r, u) && o.out == [Push(fd, LeftRoom(r))]
  {
  }

  /** What a routed frame can do: a join or a leave acknowledged to the sender, or chat pushes that leave the rooms alone. */
  lemma DispatchShape(msg: Message, rooms: RoomMap, fd: Fd, reg: FdMap, established: set<Fd>)
    requires UniqueFds(reg)
    requires Dispatch(msg, Lookup(reg, fd), rooms, fd, reg, established).Success?
    ensures var routed := Dispatch(msg, Lookup(reg, fd), rooms, fd, reg, established).value;
      || (msg.roomId.Some? && routed.out == [Push(fd, JoinedRoom(msg.roomId.value))])
      || (msg.roomId.Some? && routed.out == [Push(fd, LeftRoom(msg.roomId.value))])
      || (routed.rooms == rooms && forall a :: a in routed.out ==> a.Push? && a.payload.Chat? && a.fd != fd)
  {
    var user := Lookup(reg, fd);
    if msg.msgType.Some? && IsBroadcastType(msg.msgType.value) && msg.msgType != Some(JoinRoom) && msg.msgType != Some(LeaveRoom) {
      BroadcastSkipsSender(rooms, msg.roomId.value, fd, msg.content.value, reg, established);
    }
  }

  /**
    Whatever the frame: a fault is reported by exactly one push to the
    sender and nothing else, with the rooms untouched; every push of a
    handled frame goes to a connection, never a disconnect.
  */
  lemma FaultsReplyOnce(reg: FdMap, rooms: RoomMap, cache: CacheMap, fd: Fd, raw: string, now: int,
                        established: set<Fd>, cfg: Config)
    requires UniqueFds(reg)
    ensures var o := HandleMessage(reg, rooms, cache, fd, raw, now, established, cfg);
      && (forall a :: a in o.out ==> a.Push?)
      && (forall a :: a in o.out && a.Push? && a.payload.ErrorReply? ==> o.out == [a] && a.fd == fd && o.rooms == rooms)
  {
    if Validate(raw, cfg.ext).Success? {
      var msg := cfg.ext.parse(raw).value;
      if msg.token.Some? && CheckToken(cache, msg.token.value, now, cfg.ttl, cfg.decode).result.Success? {
        if Dispatch(msg, Lookup(reg, fd), rooms, fd, reg, established).Success? {
          DispatchShape(msg, rooms, fd, reg, established);
        }
      }
    }
  }

  /**
    A chat push never goes back to the sender's connection, and the rooms
    change only on `join_room` and `leave_room`, which are acknowledged to
    the sender alone.
  */
  lemma RoutingIsolation(reg: FdMap, rooms: RoomMap, cache: CacheMap, fd: Fd, raw: string, now: int,
                         established: set<Fd>, cfg: Config)
    requires UniqueFds(reg)
    ensures var o := HandleMessage(reg, rooms, cache, fd, raw, now, established, cfg);
      && (forall a :: a in o.out && a.Push? && a.payload.Chat? ==> a.fd != fd && o.rooms == rooms)
      && (o.rooms != rooms ==>
            (o.out == [Push(fd, JoinedRoom(cfg.ext.parse(raw).value.roomId.value))]
             || o.out == [Push(fd, LeftRoom(cfg.ext.parse(raw).value.roomId.value))]))
  {
    if Validate(raw, cfg.ext).Success? {
      var msg := cfg.ext.parse(raw).value;
      if msg.token.Some? && CheckToken(cache, msg.token.value, now, cfg.ttl, cfg.decode).result.Success? {
        if Dispatch(msg, Lookup(reg, fd), rooms, fd, reg, established).Success? {
          DispatchShape(msg, rooms, fd, reg, established);
        }
      }
    }
  }

  /**
    What is broadcast is the content of the frame as received: the
    validator's escaped copy is discarded, so text holding `& < > " '`
    reaches the other members unescaped.
  */
  lemma BroadcastCarriesRawContent(reg: FdMap, rooms: RoomMap, cache: CacheMap, fd: Fd, raw: string, now: int,
                                   established: set<Fd>, cfg: Config)
    requires UniqueFds(reg)
    requires Validate(raw, cfg.ext).Success?
    ensures var msg := cfg.ext.parse(raw).value;
      var o := HandleMessage(reg, rooms, cache, fd, raw, now, established, cfg);
      forall a :: a in o.out && a.Push? && a.payload.Chat? ==> a.payload.content == msg.content.value
    ensures var msg := cfg.ext.parse(raw).value;
      msg.msgType == Some(TextMessage) && (exists i :: 0 <= i < |msg.content.value| && Special(msg.content.value[i])) ==>
        ValidateBasedOnType(raw, cfg.ext).value.content != msg.content
  {
    var msg := cfg.ext.parse(raw).value;
    var user := Lookup(reg, fd);
    if msg.token.Some? && CheckToken(cache, msg.token.value, now, cfg.ttl, cfg.decode).result.Success?
       && msg.msgType.Some? && IsBroadcastType(msg.msgType.value)
       && msg.roomId.Some? && user.Some? && Member(rooms, msg.roomId.value, user.value)
    {
      BroadcastSkipsSender(rooms, msg.roomId.value, fd, msg.content.value, reg, established);
    }
    if msg.msgType == Some(TextMessage) && (exists i :: 0 <= i < |msg.content.value| && Special(msg.content.value[i])) {
      EscapeChangesSpecialText(msg.content.value);
    }
  }

  // ----- the server object -----

  class WebSocketServer {
    const config: Config
    const rooms: RoomManager
    const tokens: TokenCache
    var fdToUserId: FdMap
    /** The tokens handed to `JWT::decode`, in order: what a call-counting stub would record. */
    ghost var decodes: seq<string>

    ghost predicate Valid()
      reads this, rooms
    {
      rooms.Valid() && UniqueFds(fdToUserId) && tokens.ttl == config.ttl
    }

    /**
      The server as constructed, with the 300-second token cache. `appId` is
      the configuration's `app_id`: `ShippedAppId` for the configuration file
      as shipped, which has no such key.
    */
    constructor (appId: Option<string>, decode: string -> Result<Claims, string>, ext: Externals)
      ensures Valid() && fresh(rooms) && fresh(tokens)
      ensures config == Config(appId, decode, ext, DefaultTtl)
      ensures rooms.rooms == map[] && tokens.cache == map[] && fdToUserId == [] && decodes == []
    {
      config := Config(appId, decode, ext, DefaultTtl);
      rooms := new RoomManager();
      tokens := new TokenCache(DefaultTtl);
      fdToUserId := [];
      decodes := [];
    }

    method ValidateToken(jwt: string, now: int) returns (r: Result<Claims, string>)
      requires tokens.ttl == config.ttl
      modifies tokens, this`decodes
      ensures var o := CheckToken(old(tokens.cache), jwt, now, config.ttl, config.decode);
        r == o.result && tokens.cache == o.cache && decodes == old(decodes) + (if o.decoded then [jwt] else [])
    {
      var cached := tokens.Get(jwt, now);
      if cached.Some? {
        return Success(cached.value);
      }
      decodes := decodes + [jwt];
      r := config.decode(jwt);
      if r.Success? {
        tokens.Set(jwt, r.value, now);
      }
    }

    method OnOpen(fd: Fd, h: Headers, now: int) returns (out: seq<Action>)
      requires Valid()
      modifies this, tokens
      ensures Valid()
      ensures var o := HandleOpen(old(fdToUserId), old(tokens.cache), fd, h, now, config);
        fdToUserId == o.registry && tokens.cache == o.cache && decodes == old(decodes) + o.decodes && out == o.out
    {
      if h.userId.None? {
        return [Disconnect(fd, 4000, "Invalid user id!")];
      }
      if h.appId.None? || h.appId != config.appId {
        return [Disconnect(fd, 4000, "Invalid app id!")];
      }
      if EmptyHeader(h.token) {
        return [Disconnect(fd, 4001, "Token not provided!")];
      }
      var claims := ValidateToken(h.token.value, now);
      if claims.Failure? {
        return [Disconnect(fd, 4002, "Invalid token!")];
      }
      fdToUserId := Bind(fdToUserId, fd, h.userId.value);
      out := [];
    }

    method OnClose(fd: Fd)
      requires Valid()
      modifies this`fdToUserId
      ensures Valid()
      ensures fdToUserId == Closed(old(fdToUserId), fd)
      ensures rooms.rooms == old(rooms.rooms) && tokens.cache == old(tokens.cache)
    {
      CloseKeepsOtherBindings(fdToUserId, fd);
      var userId := Lookup(fdToUserId, fd);
      if userId.Some? && Truthy(userId.value) {
        fdToUserId := Unbind(fdToUserId, fd);
      }
    }

    method SendMessage(roomId: RoomId, sender: UserId, content: string, established: set<Fd>) returns (out: seq<Action>)
      ensures out == Broadcast(rooms.rooms, roomId, sender, content, fdToUserId, established)
    {
      var participants := rooms.GetRoomParticipants(roomId);
      out := [];
      if participants.None? || participants.value == [] {
        return;
      }
      var ps := participants.value;
      for i := 0 to |ps|
        invariant out == BroadcastTo(ps[..i], sender, content, fdToUserId, established)
      {
        assert ps[..i + 1][..i] == ps[..i];
        var u := ps[i];
        if u == sender {
          continue;
        }
        var fd := SearchFd(fdToUserId, u);
        if fd.Some? && fd.value != 0 && fd.value in established {
          out := out + [Push(fd.value, Chat(sender, content))];
        }
      }
      assert ps[..|ps|] == ps;
    }

    method OnMessage(fd: Fd, raw: string, now: int, established: set<Fd>) returns (out: seq<Action>)
      requires Valid()
      modifies rooms, tokens, this`decodes
      ensures Valid()
      ensures var o := HandleMessage(fdToUserId, old(rooms.rooms), old(tokens.cache), fd, raw, now, established, config);
        rooms.rooms == o.rooms && tokens.cache == o.cache && decodes == old(decodes) + o.decodes && out == o.out
    {
      var validated := Validate(raw, config.ext);
      if validated.Failure? {
        return Reply(fd, Rejected(validated.error));
      }
      var data := config.ext.parse(validated.value).value;
      if data.token.None? {
        return Reply(fd, NullArgument("Src\\Server\\WebSocketServer::validateToken", 1, "jwt"));
      }
      var claims := ValidateToken(data.token.value, now);
      if claims.Failure? {
        return Reply(fd, TokenError(claims.error));
      }
      var roomId := data.roomId;
      var userId := Lookup(fdToUserId, fd);
      if data.msgType == Some(JoinRoom) {
        if roomId.None? { return Reply(fd, NullArgument("Src\\Server\\RoomManager::joinRoom", 1, "roomId")); }
        if userId.None? { return Reply(fd, NullArgument("Src\\Server\\RoomManager::joinRoom", 2, "userId")); }
        rooms.JoinRoom(roomId.value, userId.value);
        out := [Push(fd, JoinedRoom(roomId.value))];
      } else if data.msgType == Some(LeaveRoom) {
        if roomId.None? { return Reply(fd, NullArgument("Src\\Server\\RoomManager::leaveRoom", 1, "roomId")); }
        if userId.None? { return Reply(fd, NullArgument("Src\\Server\\RoomManager::leaveRoom", 2, "userId")); }
        rooms.LeaveRoom(roomId.value, userId.value);
        out := [Push(fd, LeftRoom(roomId.value))];
      } else if data.msgType.Some? && IsBroadcastType(data.msgType.value) {
        if roomId.None? { return Reply(fd, NullArgument("Src\\Server\\RoomManager::isUserInRoom", 1, "roomId")); }
        if userId.None? { return Reply(fd, NullArgument("Src\\Server\\RoomManager::isUserInRoom", 2, "userId")); }
        var member := rooms.IsUserInRoom(roomId.value, userId.value);
        if !member {
          return Reply(fd, NotInRoom);
        }
        out := SendMessage(roomId.value, userId.value, data.content.value, established);
      } else {
        out := Reply(fd, UnknownType);
      }
    }
  }
}
