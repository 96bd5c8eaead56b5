# mini_transmit_nestjs: the real-time session and broadcast layer in Dafny

This project models the real-time core of a NestJS chat backend that pairs
users in small rooms. Pairing happens by invitation or by scanning a QR
code. Text, image and file messages are relayed between the users of a room.

The model covers:

- **The raw WebSocket service** (`RawSocket`, `websocket_service.dfy`).
  - A class holding the registry `connectedUsers`, which maps a user id to
    that user's one connection.
  - Admission closes the user's previous socket.
  - A socket's close event deletes the registry entry by user id.
  - Sends are best-effort: a frame is written only to a registered user whose
    socket is OPEN.
  - Inbound frames are dispatched by type.
  - `send_message` runs membership check, then persistence, then a broadcast
    to the room's online participants. The broadcast is a loop over the
    participant list that counts the sockets it wrote to.
- **The Socket.IO chat gateway** (`Chat`, `chat_gateway.dfy`).
  - A class whose registry is keyed by socket id, so one user may hold
    several entries.
  - Socket-room membership, changed by `join_room` and `leave_room`.
  - Membership-gated sending, which also updates the room's last-message
    summary.
  - Relayed typing events.
  - The QR-scan pairing handshake, which searches the registry for the
    owner's first socket.
- **The services those handlers call.** Each is a pure function over the
  store value `Db` (`store.dfy`):
  - messages (`Messages`): creating a message and paging a room's messages;
  - rooms (`Rooms`): creating a room with its owner and one guest, reading
    rooms, the summary update, the membership check;
  - users (`Users`): creating a user with a QR code, reading users, checking
    a scanned QR payload;
  - storage rules (`Storage`): the file-type and size checks, the stored
    name and path of an upload, the file-info lookup, the failure contracts
    of upload and delete, the required environment variable.
- **The HTTP messages controller** (`MessagesApi`): the upload guard order,
  the message an upload creates, the query defaults of the paged listing,
  and the single-message lookup.

### The store

The Supabase store is a value: one sequence of rows per table, in insertion
order. Its set `faults` names the table reads and writes that currently
fail.

- A failing access throws and writes nothing.
- A user insert and a user update fail independently. For the other tables,
  the writes of one call all fail or all succeed. The reads of one table
  all fail or all succeed, within a call and across the calls of one
  handler.
- A handler that throws part-way keeps the writes it made before the throw:
  - a user stays stored with the placeholder code `temp` when the code
    update fails;
  - a room row stays stored when the owner lookup or the participant
    inserts fail;
  - a message stays stored when the gateway's room-summary update fails.
- `.single()` finds a row only when exactly one row matches. Zero rows or
  several rows both read as "no row", as the store wrapper treats error
  `PGRST116`.

### Handlers, sockets and generated values

- Each async handler is one atomic step.
- Sockets are numbered in the order the server accepts them.
- Whatever a handler writes to a socket is appended to the class's `outbox`.
- Generated values are parameters: ids, timestamps, the uuid of an upload,
  the QR image and the bucket's answers.

### Behaviour kept as written

- The raw service's disconnect deletes by user id without checking which
  socket closed. `RawSocket.EvictionRace` shows the result: when the close
  event of an evicted socket arrives after the user reconnected, it removes
  the new registration while the new socket stays open.
- The gateway takes the acting user id from each event's body, not from the
  connection.
- A message's sender nickname is always read from the user store. The
  connection's cached nickname is not used, and neither is the nickname
  argument the controller and the gateway pass.
- The raw service's "连接状态异常" error is sent only to a user with no
  registry entry. `sendToUser` drops every frame for such a user, so that
  error never reaches anyone (first clause of `RawSocket.SendEffect`).
- The upload type check tests the mimetype as given against
  `jpeg|jpg|png|gif|pdf|doc|docx|txt|zip|rar`. `text/plain` contains none of
  these, so plain-text files are refused whatever their name, although the
  bucket is created to accept them (`Storage.PlainTextRefused`). The same
  holds for Word files: `application/msword` contains none of the
  alternatives either, so `.doc` uploads are refused (`Storage.MsWordRefused`).
- A room whose owner is also its other participant holds two participant
  rows for that user. The membership check's `.single()` then finds no
  single row, so the owner is refused in that room
  (`Rooms.SelfPairedOwnerNotMember`).

## Model

| member | source | states |
|---|---|---|
| RawSocket.Admit | src/services/websocket.service.ts:53-114 | admission is refused with "缺少用户ID参数" exactly when the user id is empty, with "连接验证失败" exactly when the user lookup throws, with "用户不存在" exactly when the user is not found, and admitted exactly when the user is stored, with the stored nickname |
| RawSocket.Deliver | src/services/websocket.service.ts:191-196 | a frame is written exactly when the user is registered and its socket is OPEN, and then only to that socket |
| RawSocket.ParticipantIds | src/services/websocket.service.ts:218 | one user id per participant row, in order |
| RawSocket.BroadcastDeliveries | src/services/websocket.service.ts:221-228 | a broadcast writes at most one frame per listed user, so `onlineCount` never exceeds the participant count |
| RawSocket.BroadcastRecipients | src/services/websocket.service.ts:222-228 | every frame a broadcast writes is the given frame, on an OPEN socket of a listed registered user; every listed user registered with an OPEN socket gets it |
| RawSocket.BroadcastEffect | src/services/websocket.service.ts:214-233 | a failing participant lookup is swallowed and writes nothing; otherwise at most one frame per participant |
| RawSocket.SendEffect | src/services/websocket.service.ts:134-181 | an unregistered sender changes nothing and hears nothing; without membership nothing is stored and at most one error is written; a failing membership read or a failing message insert sends "发送消息失败", a non-member gets "无权限在该聊天室发送消息", and neither stores anything; errors go only to the sender's own socket; a stored message is answered by the room broadcast of that message alone, with no error frame; a broadcast frame carries the message just appended to the store and reaches only online participants; when every step succeeds, every online participant gets it |
| RawSocket.DispatchEffect | src/services/websocket.service.ts:117-132 | `send_message` runs the send handler; any other type, and text that is not JSON, change nothing and send the matching error to the sender exactly when the sender is registered with an open socket |
| RawSocket.WebSocketService.constructor | src/services/websocket.service.ts:26 | the registry starts empty and the invariant holds |
| RawSocket.WebSocketService.DistinctSockets | src/services/websocket.service.ts:69-83 | under the registry invariant no two users share a socket |
| RawSocket.WebSocketService.Close | src/services/websocket.service.ts:55 | a closed socket stops being OPEN and nothing else changes |
| RawSocket.WebSocketService.SendToUser | src/services/websocket.service.ts:191-196 | the outbox grows by exactly the delivery `Deliver` allows |
| RawSocket.WebSocketService.SendError | src/services/websocket.service.ts:198-205 | an error frame is written to the socket only when it is OPEN |
| RawSocket.WebSocketService.SendErrorToUser | src/services/websocket.service.ts:207-212 | an error frame goes to the user's socket only when the user is registered and OPEN |
| RawSocket.WebSocketService.Refuse | src/services/websocket.service.ts:53-57 | a refused socket gets one error frame and is then closed |
| RawSocket.WebSocketService.Register | src/services/websocket.service.ts:69-108 | admission closes the user's previous socket, replaces the entry with the new socket and nickname, registers the close handler, sends `connected`, and keeps the registry invariant |
| RawSocket.WebSocketService.HandleConnection | src/services/websocket.service.ts:48-115 | a refused connection leaves the registry unchanged and gets one error frame; an admitted user ends with exactly one entry, holding the new socket and stored nickname, the previous socket closed, and one `connected` frame |
| RawSocket.WebSocketService.HandleDisconnect | src/services/websocket.service.ts:183-189 | the user's entry is deleted whatever socket it holds; an absent user is a no-op |
| RawSocket.WebSocketService.SocketClosed | src/services/websocket.service.ts:92-94 | a socket's close event removes it from the OPEN set and, if admission registered a handler on it, deletes that handler's user, keeping the invariant |
| RawSocket.WebSocketService.DeliverAll | src/services/websocket.service.ts:221-228 | the `forEach` loop appends exactly the broadcast deliveries and counts them |
| RawSocket.WebSocketService.BroadcastToRoom | src/services/websocket.service.ts:214-234 | the outbox grows by the broadcast effect and `onlineCount` is at most the participant count |
| RawSocket.WebSocketService.HandleSendMessage | src/services/websocket.service.ts:134-181 | the store and outbox change exactly as `SendEffect` says; the registry is untouched |
| RawSocket.WebSocketService.HandleMessage | src/services/websocket.service.ts:117-132 | the store and outbox change exactly as `DispatchEffect` says; the registry is untouched |
| RawSocket.EvictionRace | src/services/websocket.service.ts:183-189 | after reconnecting, the late close event of the evicted socket leaves the user unregistered while the new socket stays open |
| Chat.Without | src/modules/chat/chat.gateway.ts:46 | deleting a socket keeps exactly the other sockets' entries |
| Chat.WithoutKeepsDistinct | src/modules/chat/chat.gateway.ts:25 | deleting an entry keeps one entry per socket |
| Chat.FirstSocketOfIsFirst | src/modules/chat/chat.gateway.ts:166-168 | the owner search finds a socket exactly when the user registered one, and it finds the earliest registration |
| Chat.Summary | src/modules/chat/chat.gateway.ts:121 | the room summary is never empty; it is the content whenever the content is non-empty, and "发送了一个文件" when the content is absent or empty |
| Chat.SendEffect | src/modules/chat/chat.gateway.ts:89-127 | a failing membership read or a refusal stores nothing and answers only the client, with an `exception` event or "无权限在该聊天室发送消息"; an unknown sender gets "用户不存在" and nothing is stored; a failing user read, or a failing message insert for a stored sender, stores nothing and sends only an `exception` event to the client; when only the room-summary update fails the message stays stored and the client gets an `exception` event; `new_message` goes to every socket in the room, sender included, only after the message and the room summary are stored, and it is sent exactly when every step succeeds; a successful send changes the store exactly as the message insert and then the summary update change it, and announces the stored message |
| Chat.ScanReplies | src/modules/chat/chat.gateway.ts:170-182 | the owner's socket, when there is one, gets `qr_code_scanned` first; the scanner always gets `room_created` last |
| Chat.ScanEffect | src/modules/chat/chat.gateway.ts:140-185 | an unknown owner gets "无效的二维码" and nothing is created; a failing owner lookup creates nothing and sends only an `exception` event to the client; for a stored owner the store changes exactly as room creation changes it (the room row first, then the owner's and the `scanner_` guest's participant rows); when room creation throws the client gets only an `exception` event and neither notice is sent; otherwise the owner's first socket hears of the scan, and the scanner gets the room id with a `scanner_` participant id |
| Chat.ScanRoomDto | src/modules/chat/chat.gateway.ts:155-163 | the room pairs the code's owner with a `scanner_` participant carrying the scanner's nickname and avatar |
| Chat.ScannerIdsDiffer | src/modules/chat/chat.gateway.ts:155 | scans at different times give different scanner ids |
| Chat.ChatGateway.constructor | src/modules/chat/chat.gateway.ts:25 | the registry and the rooms start empty |
| Chat.ChatGateway.HandleConnection | src/modules/chat/chat.gateway.ts:33-42 | the socket is recorded exactly when the handshake names a user; one user may hold several entries |
| Chat.ChatGateway.HandleDisconnect | src/modules/chat/chat.gateway.ts:44-47 | only this socket's entry goes, and the socket leaves every room |
| Chat.ChatGateway.FindOwnerSocket | src/modules/chat/chat.gateway.ts:166-168 | the loop returns the first registered socket of the user, or none when the user has no entry |
| Chat.ChatGateway.HandleJoinRoom | src/modules/chat/chat.gateway.ts:49-71 | a non-member leaves the rooms unchanged and only the client hears an error; a member's socket enters the room, hears `joined_room`, and the room's other sockets hear `user_joined` |
| Chat.ChatGateway.HandleLeaveRoom | src/modules/chat/chat.gateway.ts:73-87 | with no membership check, the socket leaves that room only, hears `left_room`, and the rest of the room hears `user_left` |
| Chat.ChatGateway.HandleSendMessage | src/modules/chat/chat.gateway.ts:89-127 | the store and outbox change exactly as `SendEffect` says, for the room's current sockets |
| Chat.ChatGateway.HandleTyping | src/modules/chat/chat.gateway.ts:129-138 | `user_typing` goes to the room's other sockets, unchecked and not stored |
| Chat.ChatGateway.HandleScanQrCode | src/modules/chat/chat.gateway.ts:140-185 | the store and outbox change exactly as `ScanEffect` says |
| Chat.SecondTabSurvives | src/modules/chat/chat.gateway.ts:44-47 | a user connected twice keeps the second registration when the first socket disconnects, and the owner search finds it |
| Messages.RowFor | src/modules/messages/messages.service.ts:16-25 | the stored row copies room, sender, type, content and the file fields from the request, with the given nickname, id and time |
| Messages.ToResponse | src/modules/messages/messages.service.ts:27-38 | the response mirrors the row field by field and loses nothing |
| Messages.CreateMessage | src/modules/messages/messages.service.ts:9-39 | an unknown sender gives "发送者用户不存在" and nothing is written; on success exactly one row is appended, with the stored nickname, and the response carries the request's fields |
| Messages.GetMessagesByRoomId | src/modules/messages/messages.service.ts:41-56 | the page's rows are mapped one-to-one in order, at most `limit` of them, all of that room |
| Messages.GenerateFileUrl | src/modules/messages/messages.service.ts:58-61 | the URL is exactly `/uploads/` followed by the file name; when the name holds no `/`, that name is the URL's last segment |
| Rooms.ToParticipants | src/modules/rooms/rooms.service.ts:41-46 | one participant per row, in order, with `id` the row's user id and the owner flag copied |
| Rooms.LastMessageTime | src/modules/rooms/rooms.service.ts:53 | the time is absent exactly when the row has none or an empty one |
| Rooms.ToRoom | src/modules/rooms/rooms.service.ts:48-55 | the response keeps the row's id, owner and summary and maps the participants |
| Rooms.CreateRoom | src/modules/rooms/rooms.service.ts:10-56 | the room row is appended first, then the owner's and the guest's participant rows; a failing owner lookup or participant insert keeps the room row; the result has the new id and owner, no summary, and the room's participants as stored |
| Rooms.CreatedRoomParticipants | src/modules/rooms/rooms.service.ts:17-46 | a fresh room's participants are the owner, flagged owner, with the stored nickname or "房主", then the guest, not flagged, with the request's id, nickname and avatar |
| Rooms.CreatedRoomMembers | src/modules/rooms/rooms.service.ts:21-36 | after creating a fresh room both the owner and the guest pass the membership check |
| Rooms.SelfPairedOwnerNotMember | src/modules/rooms/rooms.service.ts:21-36 | when the owner is also the other participant, the owner fails the membership check in the new room |
| Rooms.GetRoomById | src/modules/rooms/rooms.service.ts:58-78 | an unknown room gives null before participants are read; a stored room is found, with its participants; the call fails exactly when the room read fails, or the participant read fails for a found room |
| Rooms.WithParticipants | src/modules/rooms/rooms.service.ts:83-102 | one response per room row, in order; any failing participant read fails the whole list |
| Rooms.GetRoomsByUserId | src/modules/rooms/rooms.service.ts:80-105 | exactly the rooms the user takes part in are returned, in store order, each as the room with its participants; the call fails exactly when the room read fails, or the participant read fails for a non-empty list |
| Rooms.GetAllRooms | src/modules/rooms/rooms.service.ts:115-141 | one response per stored room, in store order, each the room with its participants |
| Rooms.FoundRoomIsListed | src/modules/rooms/rooms.service.ts:58-78 | a room found by id is among the rooms listed, with the same participants |
| Rooms.UpdateLastMessage | src/modules/rooms/rooms.service.ts:107-109 | the summary and its time are set on the named room and nothing else changes |
| Rooms.IsUserInRoom | src/modules/rooms/rooms.service.ts:111-113 | membership holds exactly when the store holds one participant row for the pair; a failing read throws |
| Users.CreateUser | src/modules/users/users.service.ts:11-41 | the user is stored, and the stored code is then replaced by the rendered QR code of a `user_qr` payload for the new id; the returned code equals the stored one, and every other user's row is unchanged; when the update fails the user stays stored with `temp` |
| Users.CreatedUserFound | src/modules/users/users.service.ts:15-38 | with an unused id, the new user is found by id afterwards, holding the returned fields |
| Users.ValidateQrCode | src/modules/users/users.service.ts:61-74 | the user id comes back exactly when the payload parses, has type `user_qr` and a non-empty user id, and the store finds that user; every other case, store errors included, gives null |
| Users.QrRoundTrip | src/modules/users/users.service.ts:61-69 | the payload built for a stored user validates to that user's id |
| Users.CreatedUserQrValidates | src/modules/users/users.service.ts:22-26 | the QR payload of a freshly created user validates to the new id |
| Users.GetUserById | src/modules/users/users.service.ts:43-54 | null exactly for an id the store does not find, the stored fields otherwise |
| Users.GetUserQrCode | src/modules/users/users.service.ts:56-59 | null exactly for an unknown id, the stored code otherwise |
| Users.FoundUserIsListed | src/modules/users/users.service.ts:43-54 | a user found by id is among the users listed |
| Users.GetAllUsers | src/modules/users/users.service.ts:76-85 | one user per stored row, in store order, with every field of the row |
| Storage.MatchesAny | src/services/storage.service.ts:225 | the alternation matches exactly when one alternative occurs in the text |
| Storage.AllowedTest | src/services/storage.service.ts:225-227 | the unanchored test succeeds exactly when an allowed type occurs somewhere in the text |
| Storage.ValidateFileType | src/services/storage.service.ts:224-229 | a file is accepted exactly when an allowed type occurs in its lower-cased name and one occurs in its mimetype as given |
| Storage.TextPlainHasNoAlternative | src/services/storage.service.ts:225-227 | no allowed type occurs in the mimetype `text/plain` |
| Storage.PlainTextRefused | src/services/storage.service.ts:224-229 | a `text/plain` upload is refused whatever its name |
| Storage.MsWordRefused | src/services/storage.service.ts:224-229 | an `application/msword` upload is refused whatever its name |
| Storage.ValidateFileSize | src/services/storage.service.ts:234-236 | a file passes exactly when its size is at most the bound, boundary included |
| Storage.UploadNameKeepsExtension | src/services/storage.service.ts:77-78 | the stored name keeps the original name's text after its last dot |
| Storage.UploadFile | src/services/storage.service.ts:67-106 | a bucket error gives "File upload failed: Failed to upload file: …"; otherwise the path is the folder, `/` and the uuid-based name; when neither the uuid nor the original name holds a `/`, that name is the path's last segment |
| Storage.DeleteFile | src/services/storage.service.ts:111-126 | the result is true exactly when the bucket removed the file; failures give false |
| Storage.FindByName | src/services/storage.service.ts:194 | the first listed file with that name, or none when no file has it |
| Storage.InfoOf | src/services/storage.service.ts:200-204 | size defaults to 0 and the mimetype to `application/octet-stream` when missing; the time is the update time, else the creation time |
| Storage.GetFileInfo | src/services/storage.service.ts:181-208 | a listing error and a missing file give their wrapped errors; a found file is the first listed one named like the path's last segment |
| Storage.GetRequiredEnv | src/services/storage.service.ts:6-12 | a missing or empty variable gives an error naming the key; otherwise its value |
| MessagesApi.DerivedNickname | src/modules/messages/messages.controller.ts:28 | `用户` followed by the first eight characters of the sender id, or all of it when shorter |
| MessagesApi.CreateMessage | src/modules/messages/messages.controller.ts:25-30 | the service's result, with the stored nickname whatever the controller derived; a service rejection writes nothing |
| MessagesApi.UploadDto | src/modules/messages/messages.controller.ts:62-72 | the message is an image exactly when the mimetype starts with `image/`, never text, with no content, the original name, the storage URL and the size text |
| MessagesApi.UploadFile | src/modules/messages/messages.controller.ts:40-82 | a missing file, a refused type and an oversize file give their 400s in that order before any upload; a bucket failure gives a 500 starting with "文件上传失败: "; a message is created exactly when every guard passes and the service succeeds; a service rejection after a successful upload is returned as a rejection, not converted to a 500 |
| MessagesApi.QueryNumber | src/modules/messages/messages.controller.ts:90-91 | an absent or empty query value gives the default |
| MessagesApi.QueryNumberRoundTrip | src/modules/messages/messages.controller.ts:90-91 | a number written in the query is read back as itself, so `0` does not fall back to the default |
| MessagesApi.GetMessagesByRoom | src/modules/messages/messages.controller.ts:84-94 | the reply is the room's page for the parsed or default limit and offset, at most `limit` messages |
| MessagesApi.DefaultPageBound | src/modules/messages/messages.controller.ts:90-93 | without query values a page holds at most 50 messages |
| MessagesApi.GetMessageByIdAsWritten | src/modules/messages/messages.controller.ts:96-101 | every request is rejected, because the service has no `getMessageById` |
| MessagesApi.GetMessageById | src/modules/messages/messages.controller.ts:96-114 | 404 "消息不存在" exactly when the store finds no single message with that id; a message stored once under the id is served as that message |
| MessagesApi.StoredMessageRefusedAsWritten | src/modules/messages/messages.controller.ts:96-101 | a stored message is served by the intended handler and refused by the handler as written |

## Left out

- Transport and serialisation are not modelled: `ws` and Socket.IO sockets, `JSON.parse` and `JSON.stringify`, URL query parsing. Sockets are numbers with an OPEN set, inbound frames arrive already parsed (`RawSocket.Inbound`), and what is written goes to an outbox.
- Async interleaving is not modelled: each handler is one atomic step; JavaScript runs them on one thread.
- A `send_message` frame whose `data` is missing is not modelled. The destructuring of `data` throws outside the handler's `try`, which is an unhandled rejection.
- Nest's exception filter is modelled only as the `ExceptionEvent` the gateway's client receives after a store error. Its payload and logging are not modelled.
- The Supabase store wrapper (`database.service.ts`) is not part of this model beyond the `Store` value. Its orderings of users (by `created_at`, newest first) and of rooms (by `updated_at`, newest first) are not modelled; the model keeps insertion order for both. Message pages are modelled newest first. The store's own id and time generation are parameters.
- RawSocket.SendEffect: one fault covers every read of the participants table, so after a membership check that succeeds the broadcast's participant read cannot fail. The path where the message is stored, nobody is notified and the sender hears no error (the swallowed error of `broadcastToRoom`) is stated by `RawSocket.BroadcastEffect` but is not reached from a send.
- Chat.ScanEffect: one fault covers every read of the users table, so after the scan's own user lookup succeeds the owner lookup inside room creation cannot fail; that failure is stated by `Rooms.CreateRoom` but is not reached from a scan.
- Rooms.CreateRoom: the two participant inserts of one call fail together, so the state where the owner's row is stored and the guest's insert fails is not modelled.
- `formatFileSize` is not modelled: it uses floating-point `Math.log` and `toFixed`. The rendered size text is a parameter of the upload.
- Storage.UploadFile: the folder is always a parameter; the `'uploads'` default of `uploadFile` is not modelled, since its only caller passes `'messages'`.
- Multer's 10 MiB upload limit is not modelled; only the service's own size check is.
- `initializeBucket`, `listFiles`, `getPublicUrl` and `createSignedUrl` are not modelled: they are bucket I/O with no rule of their own. The bucket's answers to upload, remove and list are parameters.
- Generators are parameters: `uuidv4`, `Date.now` and `new Date`, and the QR image rendering (`QRCode.toDataURL`).
- The thin HTTP and wiring files are not part of this model: the rooms, users and tokens controllers, the tokens service, the app controller, `main.ts`, the modules and the Supabase configuration.
- MessagesApi.QueryNumber: `parseInt` is modelled only on digit strings; values such as `abc` (NaN) or `12abc` are not modelled.
- Users.CreateUser: the request DTO is given a `nickname` field, which the service reads but the declared DTO type lacks.
- Storage.ValidateFileType: `toLowerCase` is modelled on ASCII letters only.

## Findings

| source | as written | input that shows it | evidently intended | confidence | as-written member | corrected member |
|---|---|---|---|---|---|---|
| src/modules/messages/messages.controller.ts:98 | `getMessageById` calls `this.messagesService.getMessageById`, which the message service does not define, so every request fails | any id, including the id of a stored message | the stored message with that id, or 404 "消息不存在" when there is none | high, not executed | MessagesApi.GetMessageByIdAsWritten (counterexample: MessagesApi.StoredMessageRefusedAsWritten) | MessagesApi.GetMessageById |
