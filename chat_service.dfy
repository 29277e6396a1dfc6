/**
 * The message store. Creating and listing are gated on room membership; editing and deleting
 * are reserved to the sender; deleting overwrites the content with a fixed tombstone and keeps
 * the row. The table is a sequence of rows in insertion order with distinct ids.
 */
module Chat {
  import opened Common
  import opened Entities
  import Rooms

  const NotRoomMember := "You are not a member of this room"
  const MessageNotFound := "Message not found"
  const EditOwnOnly := "You can only edit your own messages"
  const DeleteOwnOnly := "You can only delete your own messages"
  const DeletedContent := "This message has been deleted"

  datatype CreateMessageDto = CreateMessageDto(
    content: string,
    roomId: RoomId,
    kind: Option<MessageType>,
    fileName: Option<string>,
    fileUrl: Option<string>)

  /** The row `create` saves: the request's fields, the caller as sender, the column defaults. */
  function NewMessage(dto: CreateMessageDto, id: MessageId, senderId: UserId, now: Millis): Message {
    Message(id, dto.content, dto.kind.GetOr(Text), senderId, dto.roomId, dto.fileName, dto.fileUrl,
            false, false, now)
  }

  /** What `update` writes back: the new content and the edited flag. */
  function Edited(m: Message, content: string): Message {
    m.(content := content, isEdited := true)
  }

  /** What `remove` writes back: the deleted flag and the tombstone content. */
  function Tombstoned(m: Message): Message {
    m.(isDeleted := true, content := DeletedContent)
  }

  predicate IdUnused(rows: seq<Message>, id: MessageId) {
    forall m | m in rows :: m.id != id
  }

  ghost predicate UniqueIds(rows: seq<Message>) {
    forall i, j | 0 <= i < j < |rows| :: rows[i].id != rows[j].id
  }

  /** The position of the row with the given id (the first one, were there several). */
  function IndexOfId(rows: seq<Message>, id: MessageId): (r: Option<nat>)
    ensures r.Some? ==> r.value < |rows| && rows[r.value].id == id
    ensures r.None? <==> IdUnused(rows, id)
  {
    if rows == [] then None
    else if rows[0].id == id then Some(0)
    else
      var k := IndexOfId(rows[1..], id);
      assert rows == [rows[0]] + rows[1..];
      if k.None? then None else Some(k.value + 1)
  }

  /** In a table with distinct ids, the row holding an id is the only one with that id. */
  lemma IndexOfIdUnique(rows: seq<Message>, i: nat)
    requires UniqueIds(rows) && i < |rows|
    ensures IndexOfId(rows, rows[i].id) == Some(i)
  {
  }

  /** The message is one the room listing's `where` clause selects. */
  predicate Listed(m: Message, roomId: RoomId) {
    m.roomId == roomId && !m.isDeleted
  }

  /** The rows of one room that are not soft-deleted, in table order (the `where` of the query). */
  function Visible(rows: seq<Message>, roomId: RoomId): (r: seq<Message>)
    ensures forall m | m in r :: m in rows && Listed(m, roomId)
    ensures forall m | m in rows && Listed(m, roomId) :: m in r
  {
    if rows == [] then []
    else
      assert rows == [rows[0]] + rows[1..];
      var rest := Visible(rows[1..], roomId);
      if Listed(rows[0], roomId) then [rows[0]] + rest else rest
  }

  /** The filter keeps every copy of a selected message and no copy of any other. */
  lemma {:induction false} VisibleCounts(rows: seq<Message>, roomId: RoomId, m: Message)
    ensures multiset(Visible(rows, roomId))[m] == if Listed(m, roomId) then multiset(rows)[m] else 0
  {
    if rows != [] {
      assert rows == [rows[0]] + rows[1..];
      VisibleCounts(rows[1..], roomId, m);
    }
  }

  lemma {:induction false} VisibleConcat(a: seq<Message>, b: seq<Message>, roomId: RoomId)
    ensures Visible(a + b, roomId) == Visible(a, roomId) + Visible(b, roomId)
  {
    if a == [] {
      assert a + b == b;
    } else {
      assert (a + b)[1..] == a[1..] + b;
      VisibleConcat(a[1..], b, roomId);
    }
  }

  /** Ascending by creation time (`order: { createdAt: 'ASC' }`). */
  predicate SortedByCreatedAt(s: seq<Message>) {
    forall i, j | 0 <= i < j < |s| :: s[i].createdAt <= s[j].createdAt
  }

  /** Insert `m` before the first message that is not older than it. */
  function InsertByCreatedAt(m: Message, s: seq<Message>): (r: seq<Message>)
    requires SortedByCreatedAt(s)
    ensures SortedByCreatedAt(r)
    ensures multiset(r) == multiset(s) + multiset{m}
    ensures |r| == |s| + 1 && (r[0] == m || (s != [] && r[0] == s[0]))
  {
    if s == [] || m.createdAt <= s[0].createdAt then [m] + s
    else
      assert s == [s[0]] + s[1..];
      var t := InsertByCreatedAt(m, s[1..]);
      assert s[0].createdAt <= t[0].createdAt;
      assert forall j | 0 <= j < |t| :: s[0].createdAt <= t[j].createdAt by {
        forall j | 0 <= j < |t| ensures s[0].createdAt <= t[j].createdAt {
          if j > 0 {
            assert t[0].createdAt <= t[j].createdAt;
          }
        }
      }
      [s[0]] + t
  }

  /** A stable insertion sort by creation time: sorted, and a permutation of its input. */
  function SortByCreatedAt(s: seq<Message>): (r: seq<Message>)
    ensures SortedByCreatedAt(r)
    ensures multiset(r) == multiset(s)
  {
    if s == [] then []
    else
      assert s == [s[0]] + s[1..];
      InsertByCreatedAt(s[0], SortByCreatedAt(s[1..]))
  }

  /**
   * Soft-deleting row `i` takes exactly that one message out of the room listing's contents
   * (nothing, when it was not listed there) and adds nothing: the tombstone is never listed.
   */
  lemma TombstoneLeavesListing(rows: seq<Message>, i: nat, roomId: RoomId)
    requires i < |rows|
    ensures var after := rows[i := Tombstoned(rows[i])];
      && multiset(Visible(after, roomId)) == multiset(Visible(rows, roomId)) - multiset{rows[i]}
      && Tombstoned(rows[i]) !in Visible(after, roomId)
  {
    var pre, x, post := rows[..i], rows[i], rows[i + 1..];
    assert rows == pre + [x] + post;
    assert rows[i := Tombstoned(x)] == pre + [Tombstoned(x)] + post;
    VisibleConcat(pre + [x], post, roomId);
    VisibleConcat(pre, [x], roomId);
    VisibleConcat(pre + [Tombstoned(x)], post, roomId);
    VisibleConcat(pre, [Tombstoned(x)], roomId);
    assert Visible([Tombstoned(x)], roomId) == [];
    if !Listed(x, roomId) {
      assert Visible([x], roomId) == [];
      VisibleCounts(rows, roomId, x);
    } else {
      assert Visible([x], roomId) == [x];
    }
  }

  /** Editing a message twice with the same content leaves the table as one edit does. */
  lemma UpdateTwiceIsOnce(rows: seq<Message>, i: nat, content: string)
    requires i < |rows|
    ensures var once := rows[i := Edited(rows[i], content)];
      once[i := Edited(once[i], content)] == once
  {
  }

  class ChatService {
    var messages: seq<Message>
    const rooms: Rooms.RoomsService

    ghost predicate Valid()
      reads this
    {
      UniqueIds(messages)
    }

    constructor (rooms: Rooms.RoomsService)
      ensures Valid() && this.rooms == rooms && messages == []
    {
      this.rooms := rooms;
      messages := [];
    }

    /**
     * `create`: Forbidden for a non-member, storing nothing; otherwise the message is stored
     * with the caller as sender and the defaults text, not edited, not deleted. The database
     * assigns `id` and `now`; `id` is one no row uses.
     */
    method Create(dto: CreateMessageDto, senderId: UserId, id: MessageId, now: Millis) returns (r: Result<Message>)
      requires Valid() && IdUnused(messages, id)
      modifies this
      ensures Valid()
      ensures r.Ok? <==> rooms.IsUserMember(dto.roomId, senderId)
      ensures r.Err? ==> r.error == Forbidden(NotRoomMember) && messages == old(messages)
      ensures r.Ok? ==> r.value == NewMessage(dto, id, senderId, now) && messages == old(messages) + [r.value]
      ensures r.Ok? ==> && r.value.roomId == dto.roomId && r.value.content == dto.content
                        && r.value.senderId == senderId && r.value.kind == dto.kind.GetOr(Text)
                        && !r.value.isEdited && !r.value.isDeleted
      ensures r.Ok? ==> FindMessageWithSender(id) == Some(r.value)
    {
      if !rooms.IsUserMember(dto.roomId, senderId) {
        return Err(Forbidden(NotRoomMember));
      }
      var m := NewMessage(dto, id, senderId, now);
      messages := messages + [m];
      IndexOfIdUnique(messages, |messages| - 1);
      r := Ok(m);
    }

    /** `findMessageWithSender`: the row with the id, or nothing (`null`). */
    function FindMessageWithSender(id: MessageId): (r: Option<Message>)
      reads this
      ensures r.Some? ==> r.value in messages && r.value.id == id
      ensures r.None? <==> IdUnused(messages, id)
    {
      var i := IndexOfId(messages, id);
      if i.Some? then Some(messages[i.value]) else None
    }

    /**
     * `findRoomMessages`: Forbidden for a non-member; otherwise exactly the room's messages
     * that are not deleted, oldest first.
     */
    function FindRoomMessages(roomId: RoomId, userId: UserId): (r: Result<seq<Message>>)
      reads this, rooms
      ensures r.Err? <==> !rooms.IsUserMember(roomId, userId)
      ensures r.Err? ==> r.error == Forbidden(NotRoomMember)
      ensures r.Ok? ==> SortedByCreatedAt(r.value)
      ensures r.Ok? ==> forall m ::
        multiset(r.value)[m] == if Listed(m, roomId) then multiset(messages)[m] else 0
    {
      if !rooms.IsUserMember(roomId, userId) then Err(Forbidden(NotRoomMember))
      else
        var listing := SortByCreatedAt(Visible(messages, roomId));
        assert forall m :: multiset(listing)[m] == if Listed(m, roomId) then multiset(messages)[m] else 0 by {
          forall m ensures multiset(listing)[m] == if Listed(m, roomId) then multiset(messages)[m] else 0 {
            VisibleCounts(messages, roomId, m);
          }
        }
        Ok(listing)
    }

    /**
     * `update`: NotFound for an unknown id, Forbidden for anyone but the sender, the table
     * unchanged in both cases; otherwise that row gets the new content and the edited flag and
     * nothing else changes.
     */
    method Update(id: MessageId, content: string, userId: UserId) returns (r: Result<Message>)
      requires Valid()
      modifies this
      ensures Valid()
      ensures IndexOfId(old(messages), id).None? ==>
        r == Err(NotFound(MessageNotFound)) && messages == old(messages)
      ensures var i := IndexOfId(old(messages), id);
        i.Some? && old(messages)[i.value].senderId != userId ==>
        r == Err(Forbidden(EditOwnOnly)) && messages == old(messages)
      ensures var i := IndexOfId(old(messages), id);
        i.Some? && old(messages)[i.value].senderId == userId ==>
        r == Ok(Edited(old(messages)[i.value], content))
        && messages == old(messages)[i.value := r.value]
      ensures r.Ok? ==>
        FindMessageWithSender(id) == Some(r.value) && r.value.content == content && r.value.isEdited
    {
      var i := IndexOfId(messages, id);
      if i.None? {
        return Err(NotFound(MessageNotFound));
      }
      var message := messages[i.value];
      if message.senderId != userId {
        return Err(Forbidden(EditOwnOnly));
      }
      message := Edited(message, content);
      messages := messages[i.value := message];
      IndexOfIdUnique(messages, i.value);
      r := Ok(message);
    }

    /**
     * `remove`: the same NotFound and Forbidden checks; otherwise the row is soft-deleted in
     * place, stays retrievable by id, and drops out of its room's listing.
     */
    method Remove(id: MessageId, userId: UserId) returns (r: Result<()>)
      requires Valid()
      modifies this
      ensures Valid()
      ensures IndexOfId(old(messages), id).None? ==>
        r == Err(NotFound(MessageNotFound)) && messages == old(messages)
      ensures var i := IndexOfId(old(messages), id);
        i.Some? && old(messages)[i.value].senderId != userId ==>
        r == Err(Forbidden(DeleteOwnOnly)) && messages == old(messages)
      ensures var i := IndexOfId(old(messages), id);
        i.Some? && old(messages)[i.value].senderId == userId ==>
        r == Ok(()) && messages == old(messages)[i.value := Tombstoned(old(messages)[i.value])]
      ensures r.Ok? ==> && FindMessageWithSender(id).Some?
                        && FindMessageWithSender(id).value.isDeleted
                        && FindMessageWithSender(id).value.content == DeletedContent
      ensures r.Ok? ==> forall m | m in Visible(messages, FindMessageWithSender(id).value.roomId) :: m.id != id
    {
      var i := IndexOfId(messages, id);
      if i.None? {
        return Err(NotFound(MessageNotFound));
      }
      var message := messages[i.value];
      if message.senderId != userId {
        return Err(Forbidden(DeleteOwnOnly));
      }
      message := Tombstoned(message);
      messages := messages[i.value := message];
      IndexOfIdUnique(messages, i.value);
      forall m | m in Visible(messages, message.roomId) ensures m.id != id {
        var k :| 0 <= k < |messages| && messages[k] == m;
      }
      r := Ok(());
    }
  }
}
