/**
 * The socket gateway: a registry from socket id to user id, the socket.io rooms each open socket
 * is in, and an outbox recording every `emit` with the set of sockets it reaches at that moment.
 * Each handler runs atomically. `live` is socket.io's set of open sockets: a socket is opened
 * (joining the room named by its own id, as socket.io does) before `handleConnection` runs, so
 * events may arrive from an open socket that is not registered yet.
 */
module Gateway {
  import opened Common
  import opened Entities
  import opened Protocol
  import Chat
  import Users

  type SocketId = string

  const BearerPrefix := "Bearer "
  const ConnectedNotice := "Connected successfully"
  const Unauthorized := "Unauthorized"

  /** The credentials of a handshake: `auth.token` and the `authorization` header, each optional. */
  datatype Handshake = Handshake(authToken: Option<string>, authorization: Option<string>)

  /** What JWT verification makes of a token: it throws, or yields a payload with an optional `sub`. */
  datatype Verdict = Rejected | Verified(sub: Option<UserId>)

  /** One `emit`: the sockets it reaches and the event they receive. */
  datatype Emit = Emit(to: set<SocketId>, event: ServerEvent)

  /** `pattern` occurs in `s` at position `i`. */
  predicate OccursAt(s: string, pattern: string, i: nat) {
    i + |pattern| <= |s| && s[i..i + |pattern|] == pattern
  }

  /** `pattern` occurs nowhere in `s`. */
  predicate Absent(s: string, pattern: string) {
    forall i: nat | i <= |s| :: !OccursAt(s, pattern, i)
  }

  /** `i` is the first position at which `pattern` occurs in `s`. */
  predicate FirstAt(s: string, pattern: string, i: nat) {
    OccursAt(s, pattern, i) && forall j: nat | j < i :: !OccursAt(s, pattern, j)
  }

  /** `s.replace(pattern, replacement)` with a string pattern: only the first occurrence changes. */
  function ReplaceFirst(s: string, pattern: string, replacement: string): (r: string)
    ensures Absent(s, pattern) ==> r == s
    ensures forall i: nat | FirstAt(s, pattern, i) :: r == s[..i] + replacement + s[i + |pattern|..]
    decreases |s|
  {
    if |s| < |pattern| then s
    else if s[..|pattern|] == pattern then
      assert OccursAt(s, pattern, 0) by { assert s[0..0 + |pattern|] == s[..|pattern|]; }
      replacement + s[|pattern|..]
    else
      assert !OccursAt(s, pattern, 0) by { assert s[0..0 + |pattern|] == s[..|pattern|]; }
      FirstAtTail(s, pattern);
      [s[0]] + ReplaceFirst(s[1..], pattern, replacement)
  }

  /**
   * When `s` does not start with the pattern, its first occurrence in `s` is one place after
   * the first occurrence in `s[1..]`, and an absent pattern stays absent.
   */
  lemma FirstAtTail(s: string, pattern: string)
    requires s != [] && !OccursAt(s, pattern, 0)
    ensures Absent(s, pattern) ==> Absent(s[1..], pattern)
    ensures forall i: nat | FirstAt(s, pattern, i) ::
      && 0 < i && FirstAt(s[1..], pattern, i - 1)
      && s[..i] == [s[0]] + s[1..][..i - 1]
      && s[i + |pattern|..] == s[1..][i - 1 + |pattern|..]
  {
    forall i: nat ensures OccursAt(s[1..], pattern, i) <==> OccursAt(s, pattern, i + 1) {
      if i + |pattern| <= |s[1..]| {
        assert s[1..][i..i + |pattern|] == s[i + 1..i + 1 + |pattern|];
      }
    }
  }

  /**
   * The token of a handshake: `auth.token || authorization?.replace("Bearer ", "")`, where the
   * empty string counts as missing.
   */
  function ExtractToken(hs: Handshake): (r: Option<string>)
    ensures r.Some? ==> r.value != ""
    ensures hs.authToken.Some? && hs.authToken.value != "" ==> r == hs.authToken
    ensures (hs.authToken.None? || hs.authToken.value == "") && hs.authorization.None? ==> r.None?
    ensures (hs.authToken.None? || hs.authToken.value == "") && hs.authorization.Some? ==>
      var t := ReplaceFirst(hs.authorization.value, BearerPrefix, "");
      r == if t == "" then None else Some(t)
  {
    if hs.authToken.Some? && hs.authToken.value != "" then hs.authToken
    else if hs.authorization.None? then None
    else
      var stripped := ReplaceFirst(hs.authorization.value, BearerPrefix, "");
      if stripped == "" then None else Some(stripped)
  }

  /** A `Bearer <t>` header yields `t`, unless `t` is empty. */
  lemma BearerHeaderToken(t: string)
    ensures ExtractToken(Handshake(None, Some(BearerPrefix + t))) == if t == "" then None else Some(t)
  {
    var h := BearerPrefix + t;
    assert h[..|BearerPrefix|] == BearerPrefix;
    assert h[|BearerPrefix|..] == t;
    assert ReplaceFirst(h, BearerPrefix, "") == t;
  }

  /** `replace` is not anchored: a `Bearer ` inside the header is cut out where it stands. */
  lemma BearerInsideHeader()
    ensures ExtractToken(Handshake(None, Some("xBearer y"))) == Some("xy")
  {
    var h := "xBearer y";
    assert !OccursAt(h, BearerPrefix, 0) by { assert h[0..7] != BearerPrefix by { assert h[0] != BearerPrefix[0]; } }
    assert OccursAt(h, BearerPrefix, 1) by { assert h[1..8] == BearerPrefix; }
    assert FirstAt(h, BearerPrefix, 1);
    assert h[..1] + "" + h[8..] == "xy";
  }

  /**
   * The user a handshake authenticates, if any. A connection is refused in exactly three cases:
   * no token, a token verification rejects, or a payload without a (non-empty) `sub`.
   */
  function Authenticate(hs: Handshake, verify: string -> Verdict): (r: Option<UserId>)
    ensures ExtractToken(hs).None? ==> r.None?
    ensures ExtractToken(hs).Some? && verify(ExtractToken(hs).value).Rejected? ==> r.None?
    ensures ExtractToken(hs).Some? && verify(ExtractToken(hs).value) in {Verified(None), Verified(Some(""))} ==> r.None?
    ensures r.Some? ==> r.value != "" && ExtractToken(hs).Some? && verify(ExtractToken(hs).value) == Verified(r)
    ensures r.Some? <==>
      && ExtractToken(hs).Some?
      && verify(ExtractToken(hs).value).Verified?
      && verify(ExtractToken(hs).value).sub.Some?
      && verify(ExtractToken(hs).value).sub.value != ""
  {
    match ExtractToken(hs)
    case None => None
    case Some(token) =>
      match verify(token)
      case Rejected => None
      case Verified(sub) => if sub.Some? && sub.value != "" then sub else None
  }

  /** How many times `sid` receives `ev` from the emits in `out`. */
  function Deliveries(out: seq<Emit>, sid: SocketId, ev: ServerEvent): nat {
    if out == [] then 0
    else (if sid in out[0].to && out[0].event == ev then 1 else 0) + Deliveries(out[1..], sid, ev)
  }

  lemma {:induction false} DeliveriesConcat(a: seq<Emit>, b: seq<Emit>, sid: SocketId, ev: ServerEvent)
    ensures Deliveries(a + b, sid, ev) == Deliveries(a, sid, ev) + Deliveries(b, sid, ev)
  {
    if a == [] {
      assert a + b == b;
    } else {
      assert (a + b)[1..] == a[1..] + b;
      DeliveriesConcat(a[1..], b, sid, ev);
    }
  }

  /**
   * The three sends of a new message: to the room (`server.in`), to the sender, and to the
   * room again (`server.to`).
   */
  function ThreePaths(room: set<SocketId>, sender: SocketId, ev: ServerEvent): seq<Emit> {
    [Emit(room, ev), Emit({sender}, ev), Emit(room, ev)]
  }

  /**
   * With the sender in the room, the sender receives the message three times, every other
   * socket of the room twice, and no other socket at all.
   */
  lemma ThreePathFanout(room: set<SocketId>, sender: SocketId, ev: ServerEvent, s: SocketId)
    requires sender in room
    ensures Deliveries(ThreePaths(room, sender, ev), s, ev) ==
      if s == sender then 3 else if s in room then 2 else 0
  {
    var out := ThreePaths(room, sender, ev);
    assert out[1..][1..][1..] == [];
    assert Deliveries(out[1..][1..], s, ev) == if s in room then 1 else 0;
    assert Deliveries(out[1..], s, ev) == (if s == sender then 1 else 0) + (if s in room then 1 else 0);
  }

  /**
   * After a new message's three sends, on top of whatever it had received before, the sender
   * has it three more times, every other socket of the room two more, and nobody else any more.
   */
  lemma NewMessageFanout(before: seq<Emit>, room: set<SocketId>, sender: SocketId, ev: ServerEvent)
    requires sender in room
    ensures forall s :: (Deliveries(before + ThreePaths(room, sender, ev), s, ev) ==
                         Deliveries(before, s, ev) + if s == sender then 3 else if s in room then 2 else 0)
  {
    forall s ensures Deliveries(before + ThreePaths(room, sender, ev), s, ev) ==
      Deliveries(before, s, ev) + (if s == sender then 3 else if s in room then 2 else 0)
    {
      DeliveriesConcat(before, ThreePaths(room, sender, ev), s, ev);
      ThreePathFanout(room, sender, ev, s);
    }
  }

  class ChatGateway {
    var live: set<SocketId>
    var joined: map<SocketId, set<RoomId>>
    var connectedUsers: map<SocketId, UserId>
    var outbox: seq<Emit>
    const chat: Chat.ChatService
    const users: Users.UsersService

    ghost predicate Valid()
      reads this, chat, users
    {
      && joined.Keys == live
      && connectedUsers.Keys <= live
      && (forall s | s in connectedUsers :: connectedUsers[s] != "")
      && chat.Valid()
      && users.Valid()
    }

    constructor (chat: Chat.ChatService, users: Users.UsersService)
      requires chat.Valid() && users.Valid()
      ensures Valid() && this.chat == chat && this.users == users
      ensures live == {} && joined == map[] && connectedUsers == map[] && outbox == []
    {
      this.chat := chat;
      this.users := users;
      live, joined, connectedUsers, outbox := {}, map[], map[], [];
    }

    /** The open sockets currently in socket.io room `roomId`. */
    function InRoom(roomId: RoomId): set<SocketId>
      reads this
    {
      set s | s in joined && roomId in joined[s]
    }

    /** The transport accepts a socket; socket.io puts it in the room named by its id. */
    method Open(sid: SocketId)
      requires Valid() && sid !in live
      modifies this
      ensures Valid()
      ensures live == old(live) + {sid} && joined == old(joined)[sid := {sid}]
      ensures connectedUsers == old(connectedUsers) && outbox == old(outbox)
    {
      live := live + {sid};
      joined := joined[sid := {sid}];
    }

    /**
     * `handleConnection`: a refused socket is disconnected, leaving no registry entry and no
     * broadcast; an admitted one is registered, its user marked online, told `connected`, and
     * `userOnline` is broadcast to every open socket.
     */
    method HandleConnection(sid: SocketId, hs: Handshake, verify: string -> Verdict, now: Millis)
      returns (admitted: Option<UserId>)
      requires Valid() && sid in live && sid !in connectedUsers
      modifies this, users
      ensures Valid()
      ensures admitted == Authenticate(hs, verify)
      ensures admitted.None? ==>
        && live == old(live) - {sid} && joined == old(joined) - {sid}
        && connectedUsers == old(connectedUsers) && outbox == old(outbox)
        && users.users == old(users.users)
      ensures admitted.Some? ==>
        && live == old(live) && joined == old(joined)
        && connectedUsers == old(connectedUsers)[sid := admitted.value]
        && users.users == Users.WithStatus(old(users.users), admitted.value, true, now)
        && outbox == old(outbox) + [Emit({sid}, Connected(ConnectedNotice)), Emit(live, UserOnline(admitted.value))]
    {
      admitted := Authenticate(hs, verify);
      if admitted.None? {
        live := live - {sid};
        joined := joined - {sid};
        return;
      }
      var userId := admitted.value;
      connectedUsers := connectedUsers[sid := userId];
      users.UpdateOnlineStatus(userId, true, now);
      outbox := outbox + [Emit({sid}, Connected(ConnectedNotice))];
      outbox := outbox + [Emit(live, UserOnline(userId))];
    }

    /**
     * `handleDisconnect`, after socket.io has dropped the socket from its rooms: a registered
     * socket loses its entry, its user is marked offline and `userOffline` is broadcast, even
     * when another socket of the same user is still registered. An unknown socket changes
     * nothing else.
     */
    method HandleDisconnect(sid: SocketId, now: Millis)
      requires Valid()
      modifies this, users
      ensures Valid()
      ensures live == old(live) - {sid} && joined == old(joined) - {sid}
      ensures sid !in old(connectedUsers) ==>
        connectedUsers == old(connectedUsers) && outbox == old(outbox) && users.users == old(users.users)
      ensures sid in old(connectedUsers) ==>
        var userId := old(connectedUsers)[sid];
        && connectedUsers == old(connectedUsers) - {sid}
        && users.users == Users.WithStatus(old(users.users), userId, false, now)
        && outbox == old(outbox) + [Emit(live, UserOffline(userId))]
    {
      live := live - {sid};
      joined := joined - {sid};
      var userId := Get(connectedUsers, sid);
      if userId.Some? && userId.value != "" {
        connectedUsers := connectedUsers - {sid};
        users.UpdateOnlineStatus(userId.value, false, now);
        outbox := outbox + [Emit(live, UserOffline(userId.value))];
      }
    }

    /** `joinRoom`: the socket enters the room and is told so; nothing is checked. */
    method HandleJoinRoom(sid: SocketId, roomId: RoomId)
      requires Valid() && sid in live
      modifies this
      ensures Valid()
      ensures joined == old(joined)[sid := old(joined)[sid] + {roomId}]
      ensures live == old(live) && connectedUsers == old(connectedUsers)
      ensures outbox == old(outbox) + [Emit({sid}, JoinedRoom(roomId))]
      ensures sid in InRoom(roomId)
    {
      joined := joined[sid := joined[sid] + {roomId}];
      outbox := outbox + [Emit({sid}, JoinedRoom(roomId))];
    }

    /** `leaveRoom`: the socket leaves the room (if it was in it) and is told so. */
    method HandleLeaveRoom(sid: SocketId, roomId: RoomId)
      requires Valid() && sid in live
      modifies this
      ensures Valid()
      ensures joined == old(joined)[sid := old(joined)[sid] - {roomId}]
      ensures live == old(live) && connectedUsers == old(connectedUsers)
      ensures outbox == old(outbox) + [Emit({sid}, LeftRoom(roomId))]
      ensures sid !in InRoom(roomId)
    {
      joined := joined[sid := joined[sid] - {roomId}];
      outbox := outbox + [Emit({sid}, LeftRoom(roomId))];
    }

    /**
     * `sendMessage`. An unregistered socket only gets `error{"Unauthorized"}`. Otherwise the
     * socket joins the room (three times, to the same effect as once) before the message store
     * is asked; a refusal reaches the sender as `error` and the join stays. A stored message is
     * looked up again and sent through three paths.
     */
    method HandleMessage(sid: SocketId, dto: Chat.CreateMessageDto, id: MessageId, now: Millis)
      requires Valid() && sid in live && Chat.IdUnused(chat.messages, id)
      modifies this, chat
      ensures Valid()
      ensures live == old(live) && connectedUsers == old(connectedUsers)
      ensures sid !in connectedUsers ==>
        && joined == old(joined) && chat.messages == old(chat.messages)
        && outbox == old(outbox) + [Emit({sid}, Error(Unauthorized))]
      ensures sid in connectedUsers ==> joined == old(joined)[sid := old(joined)[sid] + {dto.roomId}]
      ensures sid in connectedUsers && !chat.rooms.IsUserMember(dto.roomId, connectedUsers[sid]) ==>
        chat.messages == old(chat.messages) && outbox == old(outbox) + [Emit({sid}, Error(Chat.NotRoomMember))]
      ensures sid in connectedUsers && chat.rooms.IsUserMember(dto.roomId, connectedUsers[sid]) ==>
        var m := Chat.NewMessage(dto, id, connectedUsers[sid], now);
        && chat.messages == old(chat.messages) + [m]
        && sid in InRoom(dto.roomId)
        && outbox == old(outbox) + ThreePaths(InRoom(dto.roomId), sid, NewMessage(Some(m)))
    {
      var userId := Get(connectedUsers, sid);
      if userId.None? || userId.value == "" {
        outbox := outbox + [Emit({sid}, Error(Unauthorized))];
        return;
      }
      // The source joins the room three times over; a set of rooms records that as one join.
      joined := joined[sid := joined[sid] + {dto.roomId}];
      var created := chat.Create(dto, userId.value, id, now);
      if created.Err? {
        outbox := outbox + [Emit({sid}, Error(created.error.message))];
        return;
      }
      var found := chat.FindMessageWithSender(created.value.id);
      Broadcast(sid, dto.roomId, NewMessage(found));
    }

    /** The three sends of a new message, from a socket that is in the room. */
    method Broadcast(sid: SocketId, roomId: RoomId, ev: ServerEvent)
      requires Valid() && sid in InRoom(roomId)
      modifies this
      ensures Valid()
      ensures live == old(live) && joined == old(joined) && connectedUsers == old(connectedUsers)
      ensures outbox == old(outbox) + ThreePaths(InRoom(roomId), sid, ev)
    {
      var room := InRoom(roomId);
      outbox := outbox + [Emit(room, ev)];
      outbox := outbox + [Emit({sid}, ev)];
      outbox := outbox + [Emit(room, ev)];
    }

    /**
     * `typing`: from a registered socket, `userTyping` reaches every socket in the room except
     * the sender; from an unregistered one nothing is sent.
     */
    method HandleTyping(sid: SocketId, roomId: RoomId, isTyping: bool)
      requires Valid() && sid in live
      modifies this
      ensures Valid()
      ensures live == old(live) && joined == old(joined) && connectedUsers == old(connectedUsers)
      ensures sid !in connectedUsers ==> outbox == old(outbox)
      ensures sid in connectedUsers ==>
        outbox == old(outbox) + [Emit(InRoom(roomId) - {sid}, UserTyping(connectedUsers[sid], roomId, isTyping))]
    {
      var userId := Get(connectedUsers, sid);
      if userId.Some? && userId.value != "" {
        outbox := outbox + [Emit(InRoom(roomId) - {sid}, UserTyping(userId.value, roomId, isTyping))];
      }
    }
  }
}
