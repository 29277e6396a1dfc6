/**
 * The client's chat state updaters: each takes the previous state and an event and returns the
 * next state, as the React state setters of the chat provider do. Messages and typing lists are
 * kept per room; a room without an entry reads as an empty list.
 */
module ChatContext {
  import opened Common
  import opened Entities
  import Seqs

  type MessagesByRoom = map<RoomId, seq<Message>>
  type TypingByRoom = map<RoomId, seq<UserId>>

  /** Messages from one sender with one content closer together than this (ms) are one message. */
  const DuplicateWindow := 1000

  function Abs(x: int): (r: nat)
    ensures r == x || r == -x
  {
    if x < 0 then -x else x
  }

  /** Two messages are taken to be the same: one id, or one sender and content within the window. */
  predicate SameMessage(a: Message, b: Message) {
    a.id == b.id
    || (a.content == b.content && a.senderId == b.senderId && Abs(a.createdAt - b.createdAt) < DuplicateWindow)
  }

  /** Some message of `list` is taken to be `message`. */
  predicate Duplicated(list: seq<Message>, message: Message) {
    exists m | m in list :: SameMessage(m, message)
  }

  /**
   * `handleNewMessage`: a message already present (by id or by fingerprint) leaves the state as
   * it was; otherwise it goes at the end of its room's list. Other rooms never change.
   */
  function HandleNewMessage(prev: MessagesByRoom, message: Message): (next: MessagesByRoom)
    ensures forall r | r != message.roomId :: (r in next <==> r in prev) && (r in prev ==> next[r] == prev[r])
    ensures message.roomId in next && Duplicated(next[message.roomId], message)
    ensures Duplicated(Seqs.ListAt(prev, message.roomId), message) ==> next == prev
    ensures !Duplicated(Seqs.ListAt(prev, message.roomId), message) ==>
      next[message.roomId] == Seqs.ListAt(prev, message.roomId) + [message]
  {
    var existing := Seqs.ListAt(prev, message.roomId);
    if Duplicated(existing, message) then prev
    else
      assert SameMessage(message, message) && message in existing + [message];
      prev[message.roomId := existing + [message]]
  }

  /** A message whose id is already in its room's list changes nothing. */
  lemma SameIdIgnored(prev: MessagesByRoom, message: Message, i: nat)
    requires i < |Seqs.ListAt(prev, message.roomId)| && Seqs.ListAt(prev, message.roomId)[i].id == message.id
    ensures HandleNewMessage(prev, message) == prev
  {
    assert SameMessage(Seqs.ListAt(prev, message.roomId)[i], message);
  }

  /** Nor does one with the content and sender of a listed message less than a second apart. */
  lemma FingerprintIgnored(prev: MessagesByRoom, message: Message, i: nat)
    requires i < |Seqs.ListAt(prev, message.roomId)|
    requires var m := Seqs.ListAt(prev, message.roomId)[i];
      m.content == message.content && m.senderId == message.senderId
      && -DuplicateWindow < m.createdAt - message.createdAt < DuplicateWindow
    ensures HandleNewMessage(prev, message) == prev
  {
    assert SameMessage(Seqs.ListAt(prev, message.roomId)[i], message);
  }

  /** Handling one message twice is handling it once. */
  lemma HandleNewMessageIdempotent(prev: MessagesByRoom, message: Message)
    ensures HandleNewMessage(HandleNewMessage(prev, message), message) == HandleNewMessage(prev, message)
  {
    var once := HandleNewMessage(prev, message);
    assert Seqs.ListAt(once, message.roomId) == once[message.roomId];
  }

  /** `userOnline`: the user is in the set afterwards, and nobody else changes. */
  function UserOnline(online: set<UserId>, userId: UserId): (r: set<UserId>)
    ensures userId in r
    ensures forall u | u != userId :: u in r <==> u in online
  {
    online + {userId}
  }

  /** `userOffline`: the user is not in the set afterwards, and nobody else changes. */
  function UserOffline(online: set<UserId>, userId: UserId): (r: set<UserId>)
    ensures userId !in r
    ensures forall u | u != userId :: u in r <==> u in online
  {
    online - {userId}
  }

  lemma PresenceIdempotent(online: set<UserId>, userId: UserId)
    ensures UserOnline(UserOnline(online, userId), userId) == UserOnline(online, userId)
    ensures UserOffline(UserOffline(online, userId), userId) == UserOffline(online, userId)
  {
  }

  /** The later of two presence events for one user decides. */
  lemma PresenceLastWins(online: set<UserId>, userId: UserId)
    ensures UserOffline(UserOnline(online, userId), userId) == UserOffline(online, userId)
    ensures UserOnline(UserOffline(online, userId), userId) == UserOnline(online, userId)
  {
  }

  /**
   * `userTyping`: starting adds the user to the room's list when absent, at the end; stopping
   * removes every occurrence and keeps the others in order. Other rooms never change.
   */
  function HandleUserTyping(prev: TypingByRoom, userId: UserId, roomId: RoomId, isTyping: bool): (next: TypingByRoom)
    ensures forall r | r != roomId :: (r in next <==> r in prev) && (r in prev ==> next[r] == prev[r])
    ensures roomId in next
    ensures isTyping && userId in Seqs.ListAt(prev, roomId) ==> next[roomId] == Seqs.ListAt(prev, roomId)
    ensures isTyping && userId !in Seqs.ListAt(prev, roomId) ==> next[roomId] == Seqs.ListAt(prev, roomId) + [userId]
    ensures !isTyping ==> userId !in next[roomId] && multiset(next[roomId]) == multiset(Seqs.ListAt(prev, roomId))[userId := 0]
    ensures !isTyping ==> Seqs.IsSubsequence(next[roomId], Seqs.ListAt(prev, roomId))
  {
    var roomTyping := Seqs.ListAt(prev, roomId);
    if isTyping then
      prev[roomId := if userId in roomTyping then roomTyping else roomTyping + [userId]]
    else
      prev[roomId := Seqs.RemoveAll(roomTyping, userId)]
  }

  /** A room's typing list never holds a user twice, whatever sequence of events arrives. */
  lemma TypingKeepsDistinct(prev: TypingByRoom, userId: UserId, roomId: RoomId, isTyping: bool)
    requires forall r | r in prev :: Seqs.Distinct(prev[r])
    ensures var next := HandleUserTyping(prev, userId, roomId, isTyping);
      forall r | r in next :: Seqs.Distinct(next[r])
  {
    var list := Seqs.ListAt(prev, roomId);
    var next := HandleUserTyping(prev, userId, roomId, isTyping);
    if isTyping {
      if userId !in list {
        forall i, j | 0 <= i < j < |list + [userId]| ensures (list + [userId])[i] != (list + [userId])[j] {
          if j == |list| {
            assert (list + [userId])[i] == list[i];
          } else {
            assert (list + [userId])[i] == list[i] && (list + [userId])[j] == list[j];
          }
        }
      }
    } else {
      Seqs.RemoveAllDistinct(list, userId);
    }
  }

  /** Starting and then stopping leaves the room's list as though the user had only stopped. */
  lemma StartThenStop(prev: TypingByRoom, userId: UserId, roomId: RoomId)
    ensures HandleUserTyping(HandleUserTyping(prev, userId, roomId, true), userId, roomId, false)
         == HandleUserTyping(prev, userId, roomId, false)
  {
    var list := Seqs.ListAt(prev, roomId);
    if userId !in list {
      RemoveAllAppended(list, userId);
    }
  }

  lemma {:induction false} RemoveAllAppended(s: seq<UserId>, x: UserId)
    ensures Seqs.RemoveAll(s + [x], x) == Seqs.RemoveAll(s, x)
  {
    if s == [] {
      assert Seqs.RemoveAll([x], x) == [];
    } else {
      assert (s + [x])[1..] == s[1..] + [x];
      RemoveAllAppended(s[1..], x);
    }
  }

  /** `loadRoomMessages`: the fetched list replaces the room's list; other rooms never change. */
  function LoadRoomMessages(prev: MessagesByRoom, roomId: RoomId, fetched: seq<Message>): (next: MessagesByRoom)
    ensures roomId in next && next[roomId] == fetched
    ensures forall r | r != roomId :: (r in next <==> r in prev) && (r in prev ==> next[r] == prev[r])
  {
    prev[roomId := fetched]
  }

  /** A load discards whatever live messages reached the room before it completed. */
  lemma LoadOverridesLiveMessages(prev: MessagesByRoom, message: Message, fetched: seq<Message>)
    ensures LoadRoomMessages(HandleNewMessage(prev, message), message.roomId, fetched)
         == LoadRoomMessages(prev, message.roomId, fetched)
  {
  }

  /** The current room after `leaveRoom(roomId)`: cleared exactly when it is the room left. */
  function CurrentRoomAfterLeave(current: Option<Room>, roomId: RoomId): (r: Option<Room>)
    ensures r.None? <==> current.None? || current.value.id == roomId
    ensures r.Some? ==> r == current
  {
    if current.Some? && current.value.id == roomId then None else current
  }
}
