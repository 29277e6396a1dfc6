/**
 * The persisted entities (messages, rooms, room memberships, users) as values, shared by the
 * backend services and the client. Timestamps are milliseconds since the epoch. The entity
 * column `type` is called `kind` here because `type` is a Dafny keyword.
 */
module Entities {
  import opened Common

  type UserId = string
  type RoomId = string
  type MessageId = string
  type Millis = int

  datatype MessageType = Text | Image | File | System

  datatype Message = Message(
    id: MessageId,
    content: string,
    kind: MessageType,
    senderId: UserId,
    roomId: RoomId,
    fileName: Option<string>,
    fileUrl: Option<string>,
    isEdited: bool,
    isDeleted: bool,
    createdAt: Millis)

  datatype RoomType = Direct | Group | Public

  datatype Room = Room(
    id: RoomId,
    name: string,
    description: Option<string>,
    kind: RoomType,
    avatar: Option<string>,
    isPrivate: bool,
    createdBy: UserId,
    createdAt: Millis)

  datatype MemberRole = Admin | Moderator | Member

  /** A row of the room_members table. */
  datatype RoomMember = RoomMember(userId: UserId, roomId: RoomId, role: MemberRole)

  /** A row of the users table; `password` is `None` on the copies the service hands out. */
  datatype User = User(
    id: UserId,
    username: string,
    email: string,
    password: Option<string>,
    avatar: Option<string>,
    isOnline: bool,
    lastSeen: Option<Millis>,
    createdAt: Millis)
}
