/** The named socket events exchanged by the browser client and the gateway, with their payloads. */
module Protocol {
  import opened Common
  import opened Entities

  /** What a client sends to the gateway. */
  datatype ClientEvent =
    | JoinRoom(roomId: RoomId)
    | LeaveRoom(roomId: RoomId)
    | SendMessage(content: string, roomId: RoomId, kind: Option<MessageType>)
    | Typing(roomId: RoomId, isTyping: bool)

  /**
   * What the gateway sends. `NewMessage` carries the result of a lookup by id, which in the
   * source may be `null`, hence the `Option`.
   */
  datatype ServerEvent =
    | Connected(message: string)
    | UserOnline(userId: UserId)
    | UserOffline(userId: UserId)
    | JoinedRoom(roomId: RoomId)
    | LeftRoom(roomId: RoomId)
    | NewMessage(record: Option<Message>)
    | UserTyping(userId: UserId, roomId: RoomId, isTyping: bool)
    | Error(message: string)
}
