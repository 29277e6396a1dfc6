# Chat app: the relay core and its browser client, in Dafny

This project models a real-time group chat. It has two sides.

The NestJS backend holds four parts:
- a room store: rooms, plus membership rows that carry a role;
- a message store, which gates every read and write on membership;
- a user store with online/offline presence;
- a socket.io gateway that authenticates connections, tracks which socket belongs to which
  user, and fans messages and typing signals out to socket.io rooms.

The React client holds four parts:
- the chat provider's state updaters for messages, presence and typing lists;
- the socket service, which keeps a listener registry and a set of joined rooms, re-joins rooms
  on connect and auto-joins a room before sending to it;
- the message list's avatar-grouping rule;
- the composer's typing flag and the typing indicator.

Services whose fields the source changes in place are classes:
- `Rooms.RoomsService`
- `Chat.ChatService`
- `Users.UsersService`
- `Gateway.ChatGateway`
- `SocketClient.SocketService`
- `ChatArea.Composer`

Their methods state the whole new state. The client's state updaters, the avatar rule and the
indicator text are pure functions.

Some things in the source have no value inside the model, so they become parameters or
recorded events:
- Database-generated ids and the clock are parameters.
- JWT verification is a parameter `verify: string -> Verdict`.
- Every socket.io `emit` is appended to an outbox, together with the set of sockets it reaches
  at that moment.
- Every client `emit` is appended to the socket service's outbox.
- Listener calls are recorded as `Invocation`s. What a listener does when called is not modelled.

Each handler runs as one atomic step.

Behaviour of the code that the model keeps as written:
- **Presence is not reference-counted.** Any registered socket that disconnects marks its
  user offline and broadcasts `userOffline`, even if another socket of that user is still
  connected (`Gateway.ChatGateway.HandleDisconnect`). Each admission likewise broadcasts
  `userOnline`.
- **A new message is sent three times.** It goes to the room (`server.in`), then directly to
  the sender, then to the room again (`server.to`). The sender receives it three times and
  every other socket in the room twice (`Gateway.ThreePathFanout`).
- **Joining and typing are not authorised.** `joinRoom` and `leaveRoom` check nothing, not even
  that the socket is registered. `typing` requires only a registered socket, not one that has
  joined the room.
- **Soft-deleted messages are left out of a room listing** (`Chat.ChatService.FindRoomMessages`).
  The query filters on `isDeleted = false`, so a deleted message disappears rather than showing
  as a tombstone.
- **Edits and deletes are not broadcast.** They change the stored row only.
- **Room updates copy undeclared fields.** The global validation pipe runs without a whitelist,
  so `Object.assign` also copies a request's `type` and `createdBy` onto the loaded room
  (`Rooms.Patched`). A new `type` is stored. A new `createdBy` is not: the save takes that join
  column from the loaded `creator` relation, so the table keeps the old creator while the
  response shows the requested one (`Rooms.Saved`, `Rooms.RoomsService.Update`). Only the
  creator on record passes the creator-only check of `remove`.
- **A room with members cannot be removed.** No foreign key cascades, so the database refuses
  to delete a room that membership rows still refer to (`Rooms.RoomsService.Remove`). Since
  `create` gives the creator an ADMIN row, a room can only be removed after everyone has left.

## Model

| member | source | states |
|---|---|---|
| Common.Get | backend/src/chat/chat.gateway.ts:82 | a map lookup finds a value exactly when the key is present, and the value found is the stored one |
| Seqs.ListAt | frontend/src/contexts/ChatContext.tsx:58 | `prev[roomId] \|\| []` (and `listeners.get(event)` in the socket service): the stored list, or the empty list when the key has none |
| Seqs.RemoveAll | frontend/src/contexts/ChatContext.tsx:120 | `filter(id => id !== x)`: the result has no `x`, keeps every other element, adds none, and keeps every other element's multiplicity |
| Seqs.RemoveAllDistinct | frontend/src/contexts/ChatContext.tsx:120 | filtering a list without repeats gives a list without repeats |
| Seqs.IndexOf | frontend/src/services/socket.ts:107 | `indexOf`: -1 exactly when absent; otherwise the position of the element, with no earlier occurrence |
| Seqs.RemoveFirst | frontend/src/services/socket.ts:107-110 | `splice(indexOf(x), 1)`: an absent element leaves the list unchanged; a present one makes it one shorter |
| Seqs.RemoveFirstMultiset | frontend/src/services/socket.ts:107-110 | the splice takes out exactly one copy of `x` and keeps every other element |
| Seqs.RemoveFirstKeepsPrefix | frontend/src/services/socket.ts:107-110 | elements before the first occurrence keep their positions |
| Seqs.RemoveFirstOfAppended | frontend/src/services/socket.ts:96-112 | appending an absent element and then splicing it out gives the list back |
| Rooms.Patched | backend/src/rooms/rooms.service.ts:80 | `Object.assign(room, dto)` overwrites exactly the fields the request supplies, the undeclared `type` and `createdBy` included; every absent field keeps its value; id and creation time never change |
| Rooms.Saved | backend/src/rooms/rooms.service.ts:80-81 | the row the save writes: the patched room, except that the creator stays the one on record |
| Rooms.PatchedIdempotent | backend/src/rooms/rooms.service.ts:80 | applying one update twice gives the same room as applying it once |
| Rooms.RoomsService.constructor | backend/src/rooms/rooms.service.ts:11-16 | the store starts with no rooms and no memberships |
| Rooms.RoomsService.Create | backend/src/rooms/rooms.service.ts:18-34 | the saved room has the request's fields over the defaults (GROUP, public) and `createdBy` set to the creator; the creator gets an ADMIN row, becomes a member and sees the room among their rooms |
| Rooms.RoomsService.FindAll | backend/src/rooms/rooms.service.ts:36-41 | a room is listed exactly when it is not private, and is listed as stored |
| Rooms.RoomsService.FindUserRooms | backend/src/rooms/rooms.service.ts:43-53 | a room is listed exactly when the user has a membership row in it |
| Rooms.RoomsService.IsUserMember | backend/src/rooms/rooms.service.ts:123-128 | true exactly when the lookup of the pair's membership row finds one, whatever its role |
| Rooms.RoomsService.FindOne | backend/src/rooms/rooms.service.ts:55-66 | the stored room when the id exists; otherwise NotFound("Room not found") |
| Rooms.RoomsService.Update | backend/src/rooms/rooms.service.ts:68-82 | NotFound for an unknown room; success exactly for a member who is ADMIN or is the creator; then the patched room is returned, the saved row is stored, and the stored creator never changes; otherwise Forbidden and nothing changes; memberships never change |
| Rooms.RoomsService.JoinRoom | backend/src/rooms/rooms.service.ts:84-102 | NotFound for an unknown room; Forbidden("User is already a member…") for an existing member, leaving the table unchanged; otherwise a MEMBER row is added; afterwards the user is a member of an existing room |
| Rooms.RoomsService.LeaveRoom | backend/src/rooms/rooms.service.ts:104-114 | fails with NotFound exactly when the user had no row (no room lookup); otherwise that one row is removed and every other row is unchanged; afterwards the user is not a member |
| Rooms.RoomsService.Remove | backend/src/rooms/rooms.service.ts:130-139 | NotFound for an unknown room; Forbidden unless the requester is the creator; a ConstraintViolation, changing nothing, while any membership row refers to the room; otherwise the room is deleted; membership rows are never touched |
| Chat.IndexOfId | backend/src/chat/chat.service.ts:55-58 | the row found has the id asked for; nothing is found exactly when no row has it |
| Chat.IndexOfIdUnique | backend/src/chat/chat.service.ts:55-58 | when ids are unique, looking up a row's id finds that row |
| Chat.Visible | backend/src/chat/chat.service.ts:47-48 | the `where {roomId, isDeleted: false}` filter keeps exactly the rows of the room that are not deleted |
| Chat.VisibleCounts | backend/src/chat/chat.service.ts:47-48 | each listed message appears as often as it is stored; an unlisted one does not appear |
| Chat.VisibleConcat | backend/src/chat/chat.service.ts:47-48 | the filter distributes over concatenation |
| Chat.InsertByCreatedAt | backend/src/chat/chat.service.ts:50 | inserting into a list ordered by `createdAt` keeps it ordered and adds exactly that message |
| Chat.SortByCreatedAt | backend/src/chat/chat.service.ts:50 | `order: {createdAt: 'ASC'}` gives a list ordered oldest first that is a permutation of its input |
| Chat.TombstoneLeavesListing | backend/src/chat/chat.service.ts:74-90 | soft-deleting a row takes exactly that message out of its room's listing and adds nothing; the tombstone is never listed |
| Chat.UpdateTwiceIsOnce | backend/src/chat/chat.service.ts:54-72 | editing a message twice with the same content leaves the table as one edit does |
| Chat.ChatService.constructor | backend/src/chat/chat.service.ts:10-14 | the store starts empty, over the given room store |
| Chat.ChatService.Create | backend/src/chat/chat.service.ts:16-31 | success exactly when the sender is a member of the room, otherwise Forbidden and nothing is stored; the stored message carries the request's content, room and kind (default TEXT), the sender, and is neither edited nor deleted; a lookup by its id then returns it |
| Chat.ChatService.FindMessageWithSender | backend/src/chat/chat.service.ts:33-38 | the message with the id when one exists; nothing (`null`) otherwise |
| Chat.ChatService.FindRoomMessages | backend/src/chat/chat.service.ts:40-52 | Forbidden exactly for a non-member; otherwise the room's non-deleted messages, each exactly as often as stored, ordered oldest first |
| Chat.ChatService.Update | backend/src/chat/chat.service.ts:54-72 | NotFound for an unknown id, Forbidden for anyone but the sender, and in both cases nothing changes; otherwise only that row changes: new content, edited flag set |
| Chat.ChatService.Remove | backend/src/chat/chat.service.ts:74-90 | NotFound or Forbidden as for an edit; otherwise the row is kept, marked deleted, with the tombstone text; it is still found by id and no longer in its room's listing |
| Users.Patched | backend/src/users/users.service.ts:67 | `Object.assign(user, dto)`: each supplied profile field overwrites, each absent one keeps its value, and every other column is unchanged |
| Users.PatchedIdempotent | backend/src/users/users.service.ts:67 | applying one profile update twice gives the same user as applying it once |
| Users.WithStatus | backend/src/users/users.service.ts:71-76 | the user's flag takes the new value, and `lastSeen` is cleared when the user goes online and set to now when offline; every other field and every other user is unchanged; an unknown id changes nothing |
| Users.WithStatusWellFormed | backend/src/users/users.service.ts:71-76 | a presence update keeps usernames and emails unique |
| Users.LastStatusWins | backend/src/users/users.service.ts:71-76 | of two presence updates of one user, only the later one shows |
| Users.UsersService.constructor | backend/src/users/users.service.ts:11-14 | the store starts empty |
| Users.UsersService.Create | backend/src/users/users.service.ts:16-32 | Conflict exactly when the username or the email is taken, and then nothing changes; otherwise the user is stored and returned without its password, as a lookup by id returns it |
| Users.UsersService.FindOne | backend/src/users/users.service.ts:40-51 | the stored user without its password when the id exists; otherwise NotFound("User not found") |
| Users.UsersService.Update | backend/src/users/users.service.ts:65-69 | NotFound for an unknown id; a patch that would duplicate another user's username or email fails on the unique constraint and nothing changes; otherwise the patched user is stored and returned without password |
| Users.UsersService.UpdateOnlineStatus | backend/src/users/users.service.ts:71-76 | the table becomes `WithStatus` of the old table |
| Users.UsersService.Remove | backend/src/users/users.service.ts:78-81 | NotFound for an unknown id; otherwise exactly that user is deleted; afterwards a lookup fails |
| Gateway.ReplaceFirst | backend/src/chat/chat.gateway.ts:44 | `replace` with a string pattern: a string without the pattern is unchanged; otherwise only the first occurrence is replaced, wherever it stands |
| Gateway.ExtractToken | backend/src/chat/chat.gateway.ts:42-44 | a non-empty `auth.token` wins; otherwise the header with its first `Bearer ` removed, or no token when that leaves nothing or there is no header; an empty string never counts as a token |
| Gateway.BearerHeaderToken | backend/src/chat/chat.gateway.ts:44 | a header `Bearer t` yields `t`, or no token when `t` is empty |
| Gateway.BearerInsideHeader | backend/src/chat/chat.gateway.ts:44 | the removal is not anchored at the start: `xBearer y` yields the token `xy` |
| Gateway.Authenticate | backend/src/chat/chat.gateway.ts:40-62 | a connection is refused when there is no token, when verification rejects the token, or when the payload has no `sub`; a connection is admitted exactly when there is a token, it verifies and its payload has a non-empty `sub`, and the admitted user is that `sub` |
| Gateway.DeliveriesConcat | backend/src/chat/chat.gateway.ts:145-157 | deliveries from consecutive sends add up |
| Gateway.ThreePathFanout | backend/src/chat/chat.gateway.ts:145-157 | the three sends deliver a message three times to the sender, twice to every other socket in the room and never to any other socket |
| Gateway.NewMessageFanout | backend/src/chat/chat.gateway.ts:145-157 | on top of earlier traffic, a new message adds three deliveries to the sender, two to every other socket in the room and none elsewhere |
| Gateway.ChatGateway.constructor | backend/src/chat/chat.gateway.ts:32-38 | no sockets, no registrations, nothing sent |
| Gateway.ChatGateway.Open | backend/src/chat/chat.gateway.ts:40 | an accepted socket is open and in the room named by its own id; it is not registered yet |
| Gateway.ChatGateway.HandleConnection | backend/src/chat/chat.gateway.ts:40-79 | a refused socket is closed, with no registration, no presence change and no message; an admitted one is registered to its user, marked online, sent `connected` and announced to every open socket with `userOnline` |
| Gateway.ChatGateway.HandleDisconnect | backend/src/chat/chat.gateway.ts:81-89 | the socket is closed; a registered one is unregistered, its user marked offline and `userOffline` sent to the remaining sockets, even if the user has other sockets; an unregistered one changes nothing else |
| Gateway.ChatGateway.HandleJoinRoom | backend/src/chat/chat.gateway.ts:91-104 | the socket is in the room and is sent `joinedRoom`; nothing is checked |
| Gateway.ChatGateway.HandleLeaveRoom | backend/src/chat/chat.gateway.ts:106-119 | the socket is not in the room and is sent `leftRoom` |
| Gateway.ChatGateway.HandleMessage | backend/src/chat/chat.gateway.ts:121-164 | an unregistered socket only gets `error{Unauthorized}`; otherwise the socket joins the room; a non-member's message is refused with `error` and nothing is stored; a member's message is stored and sent through the three paths while the sender is in the room |
| Gateway.ChatGateway.Broadcast | backend/src/chat/chat.gateway.ts:145-157 | the three sends to the room, to the sender and to the room again, with nothing else changed |
| Gateway.ChatGateway.HandleTyping | backend/src/chat/chat.gateway.ts:166-180 | from a registered socket, `userTyping` reaches the room's sockets except the sender; from an unregistered one nothing is sent |
| ChatContext.Abs | frontend/src/contexts/ChatContext.tsx:66-69 | `Math.abs` |
| ChatContext.HandleNewMessage | frontend/src/contexts/ChatContext.tsx:54-84 | a message matching a listed one (same id, or same content and sender less than 1000 ms apart) leaves the state unchanged; otherwise it is appended to its room's list, which is created when absent; other rooms never change; afterwards the room lists a matching message |
| ChatContext.SameIdIgnored | frontend/src/contexts/ChatContext.tsx:61-63 | a message whose id is already listed in its room changes nothing |
| ChatContext.FingerprintIgnored | frontend/src/contexts/ChatContext.tsx:64-69 | a message whose content and sender match a listed message created less than one second apart changes nothing |
| ChatContext.HandleNewMessageIdempotent | frontend/src/contexts/ChatContext.tsx:54-84 | handling one message twice is handling it once |
| ChatContext.UserOnline | frontend/src/contexts/ChatContext.tsx:86-88 | the user is online afterwards and nobody else changes |
| ChatContext.UserOffline | frontend/src/contexts/ChatContext.tsx:90-96 | the user is not online afterwards and nobody else changes |
| ChatContext.PresenceIdempotent | frontend/src/contexts/ChatContext.tsx:86-96 | each presence update applied twice equals applying it once |
| ChatContext.PresenceLastWins | frontend/src/contexts/ChatContext.tsx:86-96 | of an online and an offline update of one user, the later one decides |
| ChatContext.HandleUserTyping | frontend/src/contexts/ChatContext.tsx:98-126 | starting appends the user when absent and otherwise keeps the list; stopping removes every occurrence of the user and keeps the others in their order; other rooms never change |
| ChatContext.TypingKeepsDistinct | frontend/src/contexts/ChatContext.tsx:108-123 | no room's typing list ever holds a user twice |
| ChatContext.StartThenStop | frontend/src/contexts/ChatContext.tsx:108-123 | starting and then stopping has the same effect as only stopping |
| ChatContext.RemoveAllAppended | frontend/src/contexts/ChatContext.tsx:115-120 | filtering out a user after appending them is the same as filtering first |
| ChatContext.LoadRoomMessages | frontend/src/contexts/ChatContext.tsx:176-186 | the fetched list replaces the room's list; other rooms never change |
| ChatContext.LoadOverridesLiveMessages | frontend/src/contexts/ChatContext.tsx:176-186 | a load discards any live message that reached the room before the load completed |
| ChatContext.CurrentRoomAfterLeave | frontend/src/contexts/ChatContext.tsx:218-220 | the current room is cleared exactly when it is the room being left, and is kept otherwise |
| SocketClient.Subscribed | frontend/src/services/socket.ts:96-102 | `on` appends the callback at the end, even a second time, so its count grows by one; other events unchanged |
| SocketClient.Unsubscribed | frontend/src/services/socket.ts:104-112 | `off` removes exactly one copy, the first, keeping the others in order; an unknown event or callback leaves the registry unchanged; other events unchanged |
| SocketClient.OnThenOff | frontend/src/services/socket.ts:96-112 | `off` right after `on` of a new callback restores the event's list |
| SocketClient.DuplicatesNeedTwoOffs | frontend/src/services/socket.ts:96-112 | a callback registered twice is still registered after one `off` |
| SocketClient.Calls | frontend/src/services/socket.ts:118 | `forEach(callback => callback(data))`: one call per registration, in registration order |
| SocketClient.CallsExtend | frontend/src/services/socket.ts:118 | each step of `forEach` adds the call of the next listener |
| SocketClient.CallsCount | frontend/src/services/socket.ts:114-122 | each listener is called exactly as many times as it is registered |
| SocketClient.JoinRequests | frontend/src/services/socket.ts:28-31 | one `joinRoom` per recorded room, in order |
| SocketClient.JoinRequestsCover | frontend/src/services/socket.ts:24-32 | a room is re-joined exactly when it is recorded |
| SocketClient.AddRoom | frontend/src/services/socket.ts:128-131 | `Set.add`: the room is present afterwards, a room already present keeps its place, nothing else is added, and no room is recorded twice; a new room goes last |
| SocketClient.DeleteRoom | frontend/src/services/socket.ts:140 | `Set.delete`: the room is absent afterwards and the others stay, in their order |
| SocketClient.SocketService.constructor | frontend/src/services/socket.ts:6-9 | not connected, no listeners, no rooms |
| SocketClient.SocketService.On | frontend/src/services/socket.ts:96-102 | the registry becomes `Subscribed` of the old one; nothing else changes |
| SocketClient.SocketService.Off | frontend/src/services/socket.ts:104-112 | the registry becomes `Unsubscribed` of the old one; nothing else changes |
| SocketClient.SocketService.Emit | frontend/src/services/socket.ts:114-122 | the calls made are exactly `Calls` of the event's listeners, in order |
| SocketClient.SocketService.Receive | frontend/src/services/socket.ts:42-60 | a server event is passed to the listeners of its name; `error` is only logged, and a `newMessage` without a message throws in its handler and reaches no listener |
| SocketClient.SocketService.OnConnect | frontend/src/services/socket.ts:24-32 | once connected, a `joinRoom` is sent for every recorded room, in order, and nothing else changes |
| SocketClient.SocketService.ConnectionLost | frontend/src/services/socket.ts:34-36 | only the connected flag changes |
| SocketClient.SocketService.Disconnect | frontend/src/services/socket.ts:68-75 | disconnected, with no listeners and no recorded rooms |
| SocketClient.SocketService.JoinRoom | frontend/src/services/socket.ts:124-133 | the room is recorded whether connected or not; `joinRoom` is sent only when connected |
| SocketClient.SocketService.LeaveRoom | frontend/src/services/socket.ts:135-141 | the room is forgotten whether connected or not; `leaveRoom` is sent only when connected |
| SocketClient.SocketService.SendMessage | frontend/src/services/socket.ts:143-167 | nothing is sent while disconnected; when connected, a room not yet recorded is joined and recorded before the message is sent |
| SocketClient.SocketService.SendTyping | frontend/src/services/socket.ts:169-173 | `typing` is sent only when connected |
| MessageList.ShouldShowAvatar | frontend/src/components/chat/MessageList.tsx:209-216 | the first message shows its avatar; a later one shows it when its sender differs from the previous message's, or, for the same sender, exactly when it comes more than 300000 ms after the previous one |
| MessageList.IsOwn | frontend/src/components/chat/MessageList.tsx:240 | a message is the viewer's own exactly when the viewer sent it |
| MessageList.AvatarDrawn | frontend/src/components/chat/MessageList.tsx:75 | an avatar is never drawn beside the viewer's own message, and is drawn beside anyone else's exactly when the message shows one |
| MessageList.OnlyRunHeadShowsAvatar | frontend/src/components/chat/MessageList.tsx:209-216 | in a run of one sender's messages, each at most five minutes after the one before, only the first shows an avatar |
| MessageList.HistoryKeepsLaterAvatars | frontend/src/components/chat/MessageList.tsx:209-216 | prepending older messages does not change whether a later message shows its avatar |
| ChatArea.Leading | frontend/src/components/chat/ChatArea.tsx:40 | the leading run of white space, followed by a non-space character or the end |
| ChatArea.Trailing | frontend/src/components/chat/ChatArea.tsx:40 | the trailing run of white space, preceded by a non-space character or the start |
| ChatArea.Trim | frontend/src/components/chat/ChatArea.tsx:40 | `trim()`: the part between the leading and the trailing white space; it starts and ends with a non-space character and is empty exactly for blank input |
| ChatArea.TrimIdempotent | frontend/src/components/chat/ChatArea.tsx:43 | trimming twice is trimming once |
| ChatArea.Digit | frontend/src/components/chat/ChatArea.tsx:107 | the numeral of one decimal digit |
| ChatArea.DecimalString | frontend/src/components/chat/ChatArea.tsx:107 | a number prints as decimal digits without leading zeros |
| ChatArea.DecimalRoundTrip | frontend/src/components/chat/ChatArea.tsx:107 | the printed numeral reads back as the number |
| ChatArea.CurrentTypingUsers | frontend/src/components/chat/ChatArea.tsx:95-99 | nobody without a current room; otherwise the room's typing list without the current user, with every other user kept as often as listed and in the list's order |
| ChatArea.TypingIndicator | frontend/src/components/chat/ChatArea.tsx:101-107 | no text for nobody, "Someone is typing..." for one, and the count followed by " people are typing..." for two or more |
| ChatArea.IndicatorCount | frontend/src/components/chat/ChatArea.tsx:105-107 | the number in the indicator reads back as the number of people typing |
| ChatArea.Composer.constructor | frontend/src/components/chat/ChatArea.tsx:35-36 | empty input, not typing, nothing sent |
| ChatArea.Composer.HandleTyping | frontend/src/components/chat/ChatArea.tsx:58-75 | the input takes the new value; "typing" is signalled only on the change from not typing to typing, with non-blank input and a current room; signals keep alternating, starting with "typing" |
| ChatArea.Composer.HandleStopTyping | frontend/src/components/chat/ChatArea.tsx:77-85 | "stopped" is signalled and the flag cleared only while typing with a current room; signals keep alternating |
| ChatArea.Composer.HandleSendMessage | frontend/src/components/chat/ChatArea.tsx:39-49 | nothing happens with blank input or no current room; otherwise the trimmed input is sent to the current room, then the input is cleared and typing stops |

## Left out

- Relation loading (`creator`, `members`, `sender` joined into results) is not modelled; a
  message record is returned without its sender's profile.
- `updatedAt` columns are not modelled; `createdAt` is, as a parameter.
- Rooms.RoomsService.Remove: the database also refuses to delete a room that messages still
  refer to. The room store cannot see the message table, so the model lets that removal
  succeed.
- Users.UsersService.Remove: the database refuses to delete a user that a room's `createdBy`,
  a membership row or a message still refers to. The user store cannot see those tables, so
  the model lets that removal succeed.
- Rooms.Patched: the undeclared columns a request could also carry past the validation pipe
  (`id`, `createdAt`, `updatedAt`) are not modelled; the model's update requests carry the four
  declared fields plus `type` and `createdBy`. Likewise a create request's extra properties
  are not modelled (`createdBy` is overwritten with the creator there in any case). A `null`
  for `description` or `avatar` passes `@IsOptional()` and clears the column in the source;
  the model's `None` means "absent", so an update cannot clear them.
- Chat.ChatService.Create: the source builds the row from the whole request body plus the
  sender, and the validation pipe keeps undeclared properties. A client-supplied `isEdited`,
  `isDeleted`, `createdAt` or `id` therefore reaches the row, and an existing `id` turns the
  save into an overwrite of that message. The model's request carries only the declared
  fields (content, type, room, file name, file URL), so every created message is new, not
  edited and not deleted.
- Users.Patched: the update-user request type is not part of this model. The model's requests
  carry the three profile fields; any other column a request could carry past the validation
  pipe is not modelled.
- Failures of the database itself are not modelled: a failed save, a lost connection, or a
  failed `updateOnlineStatus` inside `handleConnection`, which in the source ends in a
  disconnect.
- `UsersService.findAll`, `findByUsername` and `findByEmail` are not modelled. They are plain
  reads, and nothing in the modelled core calls them.
- `RoomsService.getRoomMembers` is not modelled; it is a plain read by room.
- Request validation of the DTOs (class-validator decorators) and the REST controllers are not
  modelled. The create-user and update-user DTO files are not part of this model, so their
  fields are taken from the user entity.
- Users.UsersService.Update: the duplicate check is how the database's unique constraints
  refuse the save; the source itself does no check.
- Gateway.Authenticate: a `sub` that is not a string, and verification that fails
  asynchronously after a delay, are not modelled.
- The socket.io transport is abstracted:
  - `Gateway.ChatGateway.Open` stands for an accepted socket;
  - socket.io's own removal of a disconnected socket from its rooms happens inside
    `Gateway.ChatGateway.HandleDisconnect`;
  - delivery failures, acknowledgements and reconnection back-off are not modelled.
- Concurrency is not modelled. Each handler and each `await` chain runs as one atomic step,
  so the interleavings of two connections' handlers are not covered.
- SocketClient.SocketService.Emit: a listener that registers or removes listeners while it is
  being called is not modelled; callbacks have no effect in the model.
- `SocketService.connect` is not modelled: it creates a socket with the token and attaches the
  handlers. `OnConnect`, `ConnectionLost` and `Receive` stand for those handlers. Calling
  `connect` twice without `disconnect` is not covered.
- The JavaScript `Set` of joined rooms is a sequence without repeats, in insertion order,
  because that is the order `forEach` visits.
- ChatArea.Composer.HandleTyping:
  - the 2-second `setTimeout` that calls `handleStopTyping` is not modelled; firing it
    corresponds to calling `HandleStopTyping`;
  - the React stale-closure effect is not modelled: a timer scheduled on the first keystroke
    sees `isTyping` still false and so sends nothing.
- ChatArea.Composer: the calls to `sendMessage` and `sendTyping` are recorded in the composer
  itself rather than passed to `SocketClient.SocketService`, so the socket service's
  connected check does not apply to them here.
- The chat provider's React-side work is not modelled:
  - the async API calls in `joinRoom`, `leaveRoom`, `createRoom` and `refreshRooms`;
  - the loading flag;
  - listener setup and cleanup, and the state reset on logout;
  - error logging.
  Only the named state updaters are modelled.
- Rendering and formatting in the message list and chat area are not modelled. This includes
  `formatDistanceToNow`, scrolling and the menus.
- Dates are integer milliseconds. An invalid date, which JavaScript turns into `NaN` and so
  never matches by fingerprint, is not modelled (a message with a known id is still dropped).
