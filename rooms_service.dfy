/**
 * The room store: a table of rooms and a table of memberships, each membership carrying a role.
 * Whether a (room, user) membership row exists is the authorisation fact the message store and
 * the room operations read. The membership table is keyed by (room, user); the service never
 * stores two rows for one pair, because `create` uses a fresh room id and `joinRoom` refuses an
 * existing member.
 */
module Rooms {
  import opened Common
  import opened Entities

  const RoomNotFound := "Room not found"
  const NoUpdatePermission := "You do not have permission to update this room"
  const AlreadyMember := "User is already a member of this room"
  const NotMember := "User is not a member of this room"
  const OnlyCreatorDeletes := "Only the room creator can delete this room"
  const ForeignKeyViolation := "violates foreign key constraint"

  datatype CreateRoomDto = CreateRoomDto(
    name: string,
    description: Option<string>,
    kind: Option<RoomType>,
    avatar: Option<string>,
    isPrivate: Option<bool>)

  /**
   * The fields of an update; `None` means the field is absent from the request. The first four
   * are the declared, validated ones. The validation pipe does not strip undeclared properties,
   * so a request may also carry the room's `type` and `createdBy` columns, and `Object.assign`
   * copies them onto the row like the rest.
   */
  datatype UpdateRoomDto = UpdateRoomDto(
    name: Option<string>,
    description: Option<string>,
    avatar: Option<string>,
    isPrivate: Option<bool>,
    kind: Option<RoomType>,
    createdBy: Option<UserId>)

  datatype MemberKey = MemberKey(roomId: RoomId, userId: UserId)

  /**
   * The row `create` saves: the request's fields over the column defaults (type GROUP, public),
   * with `createdBy` set to the creator whatever the request says.
   */
  function NewRoom(dto: CreateRoomDto, id: RoomId, creatorId: UserId, now: Millis): Room {
    Room(id, dto.name, dto.description, dto.kind.GetOr(Group), dto.avatar,
         dto.isPrivate.GetOr(false), creatorId, now)
  }

  /**
   * `Object.assign(room, dto)`: every field present in the request overwrites, the rest stay;
   * the id and the creation time never change.
   */
  function Patched(room: Room, dto: UpdateRoomDto): (r: Room)
    ensures r.id == room.id && r.createdAt == room.createdAt
    ensures dto.name.Some? ==> r.name == dto.name.value
    ensures dto.name.None? ==> r.name == room.name
    ensures dto.description.Some? ==> r.description == dto.description
    ensures dto.description.None? ==> r.description == room.description
    ensures dto.avatar.Some? ==> r.avatar == dto.avatar
    ensures dto.avatar.None? ==> r.avatar == room.avatar
    ensures dto.isPrivate.Some? ==> r.isPrivate == dto.isPrivate.value
    ensures dto.isPrivate.None? ==> r.isPrivate == room.isPrivate
    ensures dto.kind.Some? ==> r.kind == dto.kind.value
    ensures dto.kind.None? ==> r.kind == room.kind
    ensures dto.createdBy.Some? ==> r.createdBy == dto.createdBy.value
    ensures dto.createdBy.None? ==> r.createdBy == room.createdBy
  {
    room.(name := dto.name.GetOr(room.name),
          description := if dto.description.Some? then dto.description else room.description,
          avatar := if dto.avatar.Some? then dto.avatar else room.avatar,
          isPrivate := dto.isPrivate.GetOr(room.isPrivate),
          kind := dto.kind.GetOr(room.kind),
          createdBy := dto.createdBy.GetOr(room.createdBy))
  }

  /**
   * The row `save` writes for a patched room. `findOne` loads the `creator` relation, and
   * TypeORM takes the `createdBy` join column from that loaded relation, so the stored creator
   * stays the old one even when the request carries `createdBy`; every other field is written
   * as patched.
   */
  function Saved(room: Room, dto: UpdateRoomDto): (r: Room)
    ensures r.createdBy == room.createdBy
    ensures r.(createdBy := Patched(room, dto).createdBy) == Patched(room, dto)
  {
    Patched(room, dto).(createdBy := room.createdBy)
  }

  /** Applying the same update twice gives the room one application gives. */
  lemma PatchedIdempotent(room: Room, dto: UpdateRoomDto)
    ensures Patched(Patched(room, dto), dto) == Patched(room, dto)
  {
  }

  /**
   * The guard of `update`, as written: no membership row, or a row that is not ADMIN for a
   * requester who is not the creator.
   */
  predicate UpdateRefused(room: Room, role: Option<MemberRole>, userId: UserId) {
    role.None? || (role.value != Admin && room.createdBy != userId)
  }

  class RoomsService {
    var rooms: map<RoomId, Room>
    var members: map<MemberKey, MemberRole>

    constructor ()
      ensures rooms == map[] && members == map[]
    {
      rooms := map[];
      members := map[];
    }

    /** The database hands out room ids that no room and no membership row uses yet. */
    predicate FreshRoomId(id: RoomId)
      reads this
    {
      id !in rooms && forall k | k in members :: k.roomId != id
    }

    /** `isUserMember`: the lookup of the pair's membership row finds one, whatever its role. */
    function IsUserMember(roomId: RoomId, userId: UserId): (r: bool)
      reads this
      ensures r <==> Get(members, MemberKey(roomId, userId)).Some?
    {
      MemberKey(roomId, userId) in members
    }

    /** `create`: saves the room, then one ADMIN membership row for its creator. */
    method Create(dto: CreateRoomDto, creatorId: UserId, id: RoomId, now: Millis) returns (room: Room)
      requires FreshRoomId(id)
      modifies this
      ensures room == NewRoom(dto, id, creatorId, now) && room.createdBy == creatorId
      ensures rooms == old(rooms)[id := room]
      ensures MemberKey(id, creatorId) !in old(members)
      ensures members == old(members)[MemberKey(id, creatorId) := Admin]
      ensures IsUserMember(id, creatorId) && id in FindUserRooms(creatorId)
    {
      room := NewRoom(dto, id, creatorId, now);
      rooms := rooms[id := room];
      members := members[MemberKey(id, creatorId) := Admin];
    }

    /** `findAll`: exactly the rooms that are not private. */
    function FindAll(): (r: map<RoomId, Room>)
      reads this
      ensures forall id | id in rooms :: id in r <==> !rooms[id].isPrivate
      ensures forall id | id in r :: id in rooms && r[id] == rooms[id]
    {
      map id | id in rooms && !rooms[id].isPrivate :: rooms[id]
    }

    /** `findUserRooms`: exactly the rooms that have a membership row for the user. */
    function FindUserRooms(userId: UserId): (r: map<RoomId, Room>)
      reads this
      ensures forall id | id in rooms :: id in r <==> IsUserMember(id, userId)
      ensures forall id | id in r :: id in rooms && r[id] == rooms[id]
    {
      map id | id in rooms && MemberKey(id, userId) in members :: rooms[id]
    }

    /** `findOne`: the room, or NotFound when the id is absent. */
    function FindOne(id: RoomId): (r: Result<Room>)
      reads this
      ensures r.Ok? <==> id in rooms
      ensures r.Ok? ==> r.value == rooms[id]
      ensures r.Err? ==> r.error == NotFound(RoomNotFound)
    {
      if id in rooms then Ok(rooms[id]) else Err(NotFound(RoomNotFound))
    }

    /**
     * `update`: NotFound for an absent room; Forbidden unless the requester has a membership row
     * and is ADMIN or the room's creator; otherwise the supplied fields overwrite the room.
     */
    method Update(id: RoomId, dto: UpdateRoomDto, userId: UserId) returns (r: Result<Room>)
      modifies this
      ensures members == old(members)
      ensures id !in old(rooms) ==> r == Err(NotFound(RoomNotFound)) && rooms == old(rooms)
      ensures id in old(rooms) ==>
        (r.Ok? <==> MemberKey(id, userId) in members
                    && (members[MemberKey(id, userId)] == Admin || old(rooms)[id].createdBy == userId))
      ensures id in old(rooms) && r.Err? ==> r.error == Forbidden(NoUpdatePermission) && rooms == old(rooms)
      ensures r.Ok? ==> rooms == old(rooms)[id := Saved(old(rooms)[id], dto)]
      ensures r.Ok? ==> r.value == Patched(old(rooms)[id], dto)
      ensures id in rooms ==> rooms[id].createdBy == old(rooms)[id].createdBy
    {
      var found := FindOne(id);
      if found.Err? {
        return Err(found.error);
      }
      var room := found.value;
      var member := Get(members, MemberKey(id, userId));
      if UpdateRefused(room, member, userId) {
        return Err(Forbidden(NoUpdatePermission));
      }
      rooms := rooms[id := Saved(room, dto)];
      r := Ok(Patched(room, dto));
    }

    /**
     * `joinRoom`: NotFound for an absent room, Forbidden for an existing member; otherwise one
     * MEMBER row is added.
     */
    method JoinRoom(roomId: RoomId, userId: UserId) returns (r: Result<RoomMember>)
      modifies this
      ensures rooms == old(rooms)
      ensures roomId !in rooms ==> r == Err(NotFound(RoomNotFound)) && members == old(members)
      ensures roomId in rooms && old(IsUserMember(roomId, userId)) ==>
        r == Err(Forbidden(AlreadyMember)) && members == old(members)
      ensures roomId in rooms && !old(IsUserMember(roomId, userId)) ==>
        r == Ok(RoomMember(userId, roomId, Member))
        && members == old(members)[MemberKey(roomId, userId) := Member]
      ensures roomId in rooms ==> IsUserMember(roomId, userId)
    {
      var found := FindOne(roomId);
      if found.Err? {
        return Err(found.error);
      }
      var key := MemberKey(roomId, userId);
      if key in members {
        return Err(Forbidden(AlreadyMember));
      }
      members := members[key := Member];
      r := Ok(RoomMember(userId, roomId, Member));
    }

    /**
     * `leaveRoom`: NotFound when the pair has no membership row; otherwise exactly that row is
     * removed. The room itself is not looked up.
     */
    method LeaveRoom(roomId: RoomId, userId: UserId) returns (r: Result<()>)
      modifies this
      ensures rooms == old(rooms)
      ensures r.Err? <==> !old(IsUserMember(roomId, userId))
      ensures r.Err? ==> r.error == NotFound(NotMember) && members == old(members)
      ensures r.Ok? ==> members == old(members) - {MemberKey(roomId, userId)}
      ensures !IsUserMember(roomId, userId)
      ensures forall k | k in old(members) && k != MemberKey(roomId, userId) ::
        k in members && members[k] == old(members)[k]
    {
      var key := MemberKey(roomId, userId);
      if key !in members {
        return Err(NotFound(NotMember));
      }
      members := members - {key};
      r := Ok(());
    }

    /** Some membership row still refers to the room. */
    predicate HasMembers(id: RoomId)
      reads this
    {
      exists k | k in members :: k.roomId == id
    }

    /**
     * `remove`: NotFound for an absent room, Forbidden for anyone but its creator. The foreign
     * key of `room_members.roomId` has no cascade, so the database refuses to delete a room that
     * still has membership rows; only a room every member has left can go.
     */
    method Remove(id: RoomId, userId: UserId) returns (r: Result<()>)
      modifies this
      ensures members == old(members)
      ensures id !in old(rooms) ==> r == Err(NotFound(RoomNotFound)) && rooms == old(rooms)
      ensures id in old(rooms) && old(rooms)[id].createdBy != userId ==>
        r == Err(Forbidden(OnlyCreatorDeletes)) && rooms == old(rooms)
      ensures id in old(rooms) && old(rooms)[id].createdBy == userId && HasMembers(id) ==>
        r == Err(ConstraintViolation(ForeignKeyViolation)) && rooms == old(rooms)
      ensures id in old(rooms) && old(rooms)[id].createdBy == userId && !HasMembers(id) ==>
        r == Ok(()) && rooms == old(rooms) - {id}
    {
      var found := FindOne(id);
      if found.Err? {
        return Err(found.error);
      }
      if found.value.createdBy != userId {
        return Err(Forbidden(OnlyCreatorDeletes));
      }
      if HasMembers(id) {
        return Err(ConstraintViolation(ForeignKeyViolation));
      }
      rooms := rooms - {id};
      r := Ok(());
    }
  }
}
