/** The Socket.IO chat gateway: a registry of connected sockets keyed by
    socket id (one user may hold several), socket-room membership changed by
    `join_room` and `leave_room`, membership-gated sending that persists the
    message and the room summary before broadcasting, relayed typing
    events, and the QR-scan pairing handshake. The acting user id is taken
    from each event's body, not from the connection. Each async handler is
    one atomic step; a store error thrown inside a handler ends it, keeps
    the writes made before the throw, and the framework answers the client
    with an `exception` event. */
module Chat {
  import opened Wrappers
  import opened Store
  import Strings
  import Users
  import Rooms
  import Messages

  type SocketId = nat

  /** A registry entry: a socket and the user its handshake named. */
  datatype Entry = Entry(socket: SocketId, userId: string)

  datatype Event =
    | ErrorEvent(message: string)
    | ExceptionEvent
    | JoinedRoom(roomId: string)
    | UserJoined(userId: string, roomId: string)
    | LeftRoom(roomId: string)
    | UserLeft(userId: string, roomId: string)
    | NewMessageEvent(msg: Messages.MessageResponse)
    | UserTyping(userId: string, isTyping: bool)
    | QrCodeScanned(roomId: string, scannerNickname: string, scannerAvatar: Option<string>)
    | RoomCreated(roomId: string, participantId: string)

  /** One `emit`, and the sockets it reaches. */
  datatype Emission = Emission(to: set<SocketId>, event: Event)

  /** The body of `send_message`. */
  datatype SendData = SendData(roomId: string, userId: string, kind: MessageType, content: Option<string>)

  /** The body of `scan_qr_code`. */
  datatype ScanData = ScanData(userId: string, scannerNickname: string, scannerAvatar: Option<string>)

  /** The store afterwards and the emissions made. */
  datatype Effect = Effect(db: Db, out: seq<Emission>)

  const JoinDenied := "无权限加入该聊天室"
  const SendDenied := "无权限在该聊天室发送消息"
  const UnknownSender := "用户不存在"
  const InvalidQrCode := "无效的二维码"
  const FileSummary := "发送了一个文件"
  const ScannerPrefix := "scanner_"

  /** The sockets in a socket-room; a room nobody joined is empty. */
  function Members(rooms: map<string, set<SocketId>>, roomId: string): set<SocketId> {
    if roomId in rooms then rooms[roomId] else {}
  }

  predicate DistinctSockets(entries: seq<Entry>) {
    forall i, j :: 0 <= i < j < |entries| ==> entries[i].socket != entries[j].socket
  }

  /** `Map.delete`: the entries of every other socket, in order. */
  function Without(entries: seq<Entry>, ws: SocketId): (r: seq<Entry>)
    ensures forall e :: e in r <==> e in entries && e.socket != ws
  {
    if entries == [] then []
    else (if entries[0].socket == ws then [] else [entries[0]]) + Without(entries[1..], ws)
  }

  /** Deleting an entry keeps one entry per socket. */
  lemma {:induction false} WithoutKeepsDistinct(entries: seq<Entry>, ws: SocketId)
    requires DistinctSockets(entries)
    ensures DistinctSockets(Without(entries, ws))
  {
    if entries != [] {
      var tail := entries[1..];
      assert DistinctSockets(tail) by {
        forall i, j | 0 <= i < j < |tail| ensures tail[i].socket != tail[j].socket {
          assert tail[i] == entries[i + 1] && tail[j] == entries[j + 1];
        }
      }
      WithoutKeepsDistinct(tail, ws);
      var rest := Without(tail, ws);
      forall k | 0 <= k < |rest| ensures rest[k].socket != entries[0].socket {
        assert rest[k] in tail;
        var j :| 0 <= j < |tail| && tail[j] == rest[k];
        assert entries[j + 1] == rest[k];
      }
    }
  }

  /** The first registered socket of `userId`, in registration order:
      `Array.from(values()).find`. */
  function FirstSocketOf(entries: seq<Entry>, userId: string): Option<SocketId> {
    if entries == [] then None
    else if entries[0].userId == userId then Some(entries[0].socket)
    else FirstSocketOf(entries[1..], userId)
  }

  /** The search finds a socket exactly when the user registered one, and
      it finds the earliest registration. */
  lemma {:induction false} FirstSocketOfIsFirst(entries: seq<Entry>, userId: string)
    ensures var r := FirstSocketOf(entries, userId);
            && (r.Some? <==> exists k :: 0 <= k < |entries| && entries[k].userId == userId)
            && (r.Some? ==> exists k :: 0 <= k < |entries| && entries[k] == Entry(r.value, userId)
                                         && forall j :: 0 <= j < k ==> entries[j].userId != userId)
  {
    if entries != [] && entries[0].userId != userId {
      var tail := entries[1..];
      FirstSocketOfIsFirst(tail, userId);
      assert forall j :: 1 <= j < |entries| ==> entries[j] == tail[j - 1];
      var r := FirstSocketOf(tail, userId);
      if r.Some? {
        var k :| 0 <= k < |tail| && tail[k] == Entry(r.value, userId)
                 && forall j :: 0 <= j < k ==> tail[j].userId != userId;
        assert entries[k + 1] == Entry(r.value, userId);
      }
    } else if entries != [] {
      assert entries[0] == Entry(entries[0].socket, userId);
    }
  }

  /** The room summary: the content, or a file placeholder when the
      content is absent or empty. */
  function Summary(content: Option<string>): (s: string)
    ensures s != ""
    ensures content.Some? && content.value != "" ==> s == content.value
    ensures content.None? || content.value == "" ==> s == FileSummary
  {
    if content.Some? && content.value != "" then content.value else FileSummary
  }

  /** The message a `send_message` event asks to create: text only, no
      file fields. */
  function SendDto(data: SendData): Messages.CreateMessageDto {
    Messages.CreateMessageDto(data.roomId, data.userId, data.kind, data.content, None, None, None)
  }

  /** `handleSendMessage`: the membership check and the user lookup, each
      answered by an error to the client; then the message, the room
      summary, and `new_message` to every socket in the room. */
  function SendEffect(members: set<SocketId>, db: Db, client: SocketId, data: SendData,
                      id: string, createdAt: string, now: string): (e: Effect)
    // a refused or failing send stores nothing and answers only the client
    ensures Rooms.IsUserInRoom(db, data.roomId, data.userId) != Success(true) ==>
              e.db == db && |e.out| == 1 && e.out[0].to == {client}
    ensures Rooms.IsUserInRoom(db, data.roomId, data.userId).Failure? ==>
              e.out == [Emission({client}, ExceptionEvent)]
    ensures Rooms.IsUserInRoom(db, data.roomId, data.userId) == Success(false) ==>
              e.out == [Emission({client}, ErrorEvent(SendDenied))]
    // an unknown sender is answered with an error and nothing is stored
    ensures Rooms.IsUserInRoom(db, data.roomId, data.userId) == Success(true)
            && ReadUsers !in db.faults && !HasUser(db, data.userId) ==>
              e == Effect(db, [Emission({client}, ErrorEvent(UnknownSender))])
    // a failing user read or message insert stores nothing and raises
    ensures Rooms.IsUserInRoom(db, data.roomId, data.userId) == Success(true)
            && (ReadUsers in db.faults || (HasUser(db, data.userId) && WriteMessages in db.faults)) ==>
              e == Effect(db, [Emission({client}, ExceptionEvent)])
    // a failing summary update leaves the message stored and unannounced
    ensures Rooms.IsUserInRoom(db, data.roomId, data.userId) == Success(true)
            && ReadUsers !in db.faults && HasUser(db, data.userId)
            && WriteMessages !in db.faults && WriteRooms in db.faults ==>
              e == Effect(Messages.CreateMessage(db, SendDto(data), id, createdAt).db, [Emission({client}, ExceptionEvent)])
    // a broadcast happens only after the message and the summary are stored
    ensures forall m :: m in e.out && m.event.NewMessageEvent? ==>
              && m.to == members
              && e.db.messages == db.messages + [Messages.RowOf(m.event.msg)]
              && m.event.msg.roomId == data.roomId && m.event.msg.senderId == data.userId
              && m.event.msg.content == data.content
              && forall r :: r in e.db.rooms && r.id == data.roomId ==> r.lastMessage == Some(Summary(data.content))
    // a successful send stores the message and the summary, and nothing
    // else, and announces exactly the stored message
    ensures Rooms.IsUserInRoom(db, data.roomId, data.userId) == Success(true)
            && ReadUsers !in db.faults && HasUser(db, data.userId)
            && WriteMessages !in db.faults && WriteRooms !in db.faults ==>
              var s := Messages.CreateMessage(db, SendDto(data), id, createdAt);
              var u := Rooms.UpdateLastMessage(s.db, data.roomId, Summary(data.content), now);
              && s.result.Success? && u.Success?
              && e == Effect(u.value, [Emission(members, NewMessageEvent(s.result.value))])
    // and it happens whenever every step succeeds
    ensures (exists m :: m in e.out && m.event.NewMessageEvent?) <==>
              && Rooms.IsUserInRoom(db, data.roomId, data.userId) == Success(true)
              && ReadUsers !in db.faults && HasUser(db, data.userId)
              && WriteMessages !in db.faults && WriteRooms !in db.faults
  {
    match Rooms.IsUserInRoom(db, data.roomId, data.userId)
    case Failure(_) => Effect(db, [Emission({client}, ExceptionEvent)])
    case Success(false) => Effect(db, [Emission({client}, ErrorEvent(SendDenied))])
    case Success(true) =>
      match Users.GetUserById(db, data.userId)
      case Failure(_) => Effect(db, [Emission({client}, ExceptionEvent)])
      case Success(None) => Effect(db, [Emission({client}, ErrorEvent(UnknownSender))])
      case Success(Some(_)) =>
        var s := Messages.CreateMessage(db, SendDto(data), id, createdAt);
        match s.result
        case Failure(_) => Effect(s.db, [Emission({client}, ExceptionEvent)])
        case Success(msg) =>
          match Rooms.UpdateLastMessage(s.db, data.roomId, Summary(data.content), now)
          case Failure(_) => Effect(s.db, [Emission({client}, ExceptionEvent)])
          case Success(db2) =>
            assert db2.messages == s.db.messages;
            forall r | r in db2.rooms && r.id == data.roomId ensures r.lastMessage == Some(Summary(data.content)) {
              var i :| 0 <= i < |db2.rooms| && db2.rooms[i] == r;
            }
            var e := Effect(db2, [Emission(members, NewMessageEvent(msg))]);
            assert e.out[0] in e.out;
            e
  }

  /** The scan's replies: `qr_code_scanned` to the owner's socket when
      there is one, then `room_created` to the scanner. */
  function ScanReplies(owner: Option<SocketId>, client: SocketId, data: ScanData, roomId: string, scannerId: string)
    : (out: seq<Emission>)
    ensures |out| == if owner.Some? then 2 else 1
    ensures out[|out| - 1] == Emission({client}, RoomCreated(roomId, scannerId))
    ensures owner.Some? ==> out[0] == Emission({owner.value}, QrCodeScanned(roomId, data.scannerNickname, data.scannerAvatar))
    ensures forall m :: m in out && m.event.RoomCreated? ==> m == out[|out| - 1]
  {
    var notice := match owner
                  case None => []
                  case Some(ws) => [Emission({ws}, QrCodeScanned(roomId, data.scannerNickname, data.scannerAvatar))];
    notice + [Emission({client}, RoomCreated(roomId, scannerId))]
  }

  /** `handleScanQrCode`: an unknown owner gets an error and nothing is
      created; otherwise a room pairs the owner with a `scanner_<time>`
      participant, the owner's first registered socket (if any) hears of
      the scan, and the scanner always gets the room id. */
  function ScanEffect(entries: seq<Entry>, db: Db, client: SocketId, data: ScanData,
                      now: nat, roomId: string, createdAt: string): (e: Effect)
    ensures ReadUsers !in db.faults && !HasUser(db, data.userId) ==>
              e == Effect(db, [Emission({client}, ErrorEvent(InvalidQrCode))])
    ensures ReadUsers !in db.faults && HasUser(db, data.userId)
            && WriteRooms !in db.faults && WriteParticipants !in db.faults && ReadParticipants !in db.faults ==>
              && e.db.rooms == db.rooms + [Rooms.NewRoomRow(ScanRoomDto(data, now), roomId, createdAt)]
              && |e.out| == (if FirstSocketOf(entries, data.userId).Some? then 2 else 1)
              && e.out[|e.out| - 1] == Emission({client}, RoomCreated(roomId, ScanRoomDto(data, now).participantId))
              && (|e.out| == 2 ==>
                    e.out[0] == Emission({FirstSocketOf(entries, data.userId).value},
                                         QrCodeScanned(roomId, data.scannerNickname, data.scannerAvatar)))
    // a failing owner lookup creates nothing and sends no notice
    ensures ReadUsers in db.faults ==> e == Effect(db, [Emission({client}, ExceptionEvent)])
    // a failing room creation keeps its writes and raises before any notice
    ensures ReadUsers !in db.faults && HasUser(db, data.userId)
            && Rooms.CreateRoom(db, ScanRoomDto(data, now), roomId, createdAt).result.Failure? ==>
              e.out == [Emission({client}, ExceptionEvent)]
    // a known owner's scan stores exactly what room creation stores
    ensures ReadUsers !in db.faults && HasUser(db, data.userId) ==>
              e.db == Rooms.CreateRoom(db, ScanRoomDto(data, now), roomId, createdAt).db
    ensures forall m :: m in e.out && m.event.RoomCreated? ==>
              m.to == {client} && Strings.StartsWith(m.event.participantId, ScannerPrefix)
  {
    match Users.GetUserById(db, data.userId)
    case Failure(_) => Effect(db, [Emission({client}, ExceptionEvent)])
    case Success(None) => Effect(db, [Emission({client}, ErrorEvent(InvalidQrCode))])
    case Success(Some(_)) =>
      var dto := ScanRoomDto(data, now);
      var s := Rooms.CreateRoom(db, dto, roomId, createdAt);
      match s.result
      case Failure(_) => Effect(s.db, [Emission({client}, ExceptionEvent)])
      case Success(room) =>
        Effect(s.db, ScanReplies(FirstSocketOf(entries, data.userId), client, data, room.id, dto.participantId))
  }

  /** The room a scan asks for: the code's owner and the scanner, whose id
      is `scanner_` and the scan time. */
  function ScanRoomDto(data: ScanData, now: nat): (dto: Rooms.CreateRoomDto)
    ensures dto.ownerId == data.userId && Strings.StartsWith(dto.participantId, ScannerPrefix)
    ensures dto.participantNickname == data.scannerNickname && dto.participantAvatar == data.scannerAvatar
  {
    var scannerId := ScannerPrefix + Strings.NatToString(now);
    assert scannerId[..|ScannerPrefix|] == ScannerPrefix;
    Rooms.CreateRoomDto(data.userId, scannerId, data.scannerNickname, data.scannerAvatar)
  }

  /** Two scans at different times give different scanner ids. */
  lemma {:induction false} ScannerIdsDiffer(t1: nat, t2: nat)
    requires t1 != t2
    ensures ScanRoomDto(ScanData("", "", None), t1).participantId != ScanRoomDto(ScanData("", "", None), t2).participantId
  {
    var a, b := Strings.NatToString(t1), Strings.NatToString(t2);
    if ScannerPrefix + a == ScannerPrefix + b {
      assert a == (ScannerPrefix + a)[|ScannerPrefix|..];
      assert b == (ScannerPrefix + b)[|ScannerPrefix|..];
      Strings.ParseNatToString(t1);
      Strings.ParseNatToString(t2);
    }
  }

  class ChatGateway {
    /** `connectedUsers` in insertion order. */
    var entries: seq<Entry>
    /** Socket.IO's socket-rooms. */
    var rooms: map<string, set<SocketId>>
    var outbox: seq<Emission>
    var db: Db
    /** The next socket id the server hands out. */
    var nextSocket: nat

    /** One entry per socket, and every socket in use was handed out. */
    ghost predicate Valid()
      reads this
    {
      && DistinctSockets(entries)
      && (forall i :: 0 <= i < |entries| ==> entries[i].socket < nextSocket)
    }

    constructor(db: Db)
      ensures Valid()
      ensures entries == [] && rooms == map[] && outbox == [] && this.db == db && nextSocket == 0
    {
      entries := [];
      rooms := map[];
      outbox := [];
      this.db := db;
      nextSocket := 0;
    }

    /** `handleConnection` for a new socket, returned as `ws`: recorded only
        when the handshake names a user. */
    method HandleConnection(userId: string) returns (ws: SocketId)
      requires Valid()
      modifies this`entries, this`nextSocket
      ensures Valid()
      ensures ws == old(nextSocket) && nextSocket == old(nextSocket) + 1
      ensures entries == if userId != "" then old(entries) + [Entry(ws, userId)] else old(entries)
    {
      ws := nextSocket;
      nextSocket := nextSocket + 1;
      if userId != "" {
        entries := entries + [Entry(ws, userId)];
      }
    }

    /** `handleDisconnect`: only this socket's entry goes; Socket.IO also
        takes the socket out of every room. */
    method HandleDisconnect(client: SocketId)
      requires Valid()
      modifies this`entries, this`rooms
      ensures Valid()
      ensures entries == Without(old(entries), client)
      ensures rooms.Keys == old(rooms).Keys
      ensures forall r :: r in rooms ==> rooms[r] == old(rooms)[r] - {client}
    {
      WithoutKeepsDistinct(entries, client);
      entries := Without(entries, client);
      rooms := map r | r in rooms :: rooms[r] - {client};
    }

    /** The sockets that registered for `userId`, first one first. */
    method FindOwnerSocket(userId: string) returns (found: Option<SocketId>)
      ensures found == FirstSocketOf(entries, userId)
      ensures found.Some? ==> exists k :: 0 <= k < |entries| && entries[k] == Entry(found.value, userId)
      ensures found.None? ==> forall k :: 0 <= k < |entries| ==> entries[k].userId != userId
    {
      var i := 0;
      while i < |entries|
        invariant 0 <= i <= |entries|
        invariant forall j :: 0 <= j < i ==> entries[j].userId != userId
        invariant FirstSocketOf(entries, userId) == FirstSocketOf(entries[i..], userId)
      {
        if entries[i].userId == userId {
          return Some(entries[i].socket);
        }
        assert entries[i..][1..] == entries[i + 1..];
        i := i + 1;
      }
      return None;
    }

    /** `join_room`: a member's socket enters the room and hears
        `joined_room`; the room's other sockets hear `user_joined`. */
    method HandleJoinRoom(client: SocketId, roomId: string, userId: string)
      modifies this`rooms, this`outbox
      ensures var access := Rooms.IsUserInRoom(db, roomId, userId);
              && (access != Success(true) ==> rooms == old(rooms))
              && (access.Failure? ==> outbox == old(outbox) + [Emission({client}, ExceptionEvent)])
              && (access == Success(false) ==> outbox == old(outbox) + [Emission({client}, ErrorEvent(JoinDenied))])
              && (access == Success(true) ==>
                    && rooms == old(rooms)[roomId := Members(old(rooms), roomId) + {client}]
                    && outbox == old(outbox) + [Emission({client}, JoinedRoom(roomId)),
                                                Emission(Members(rooms, roomId) - {client}, UserJoined(userId, roomId))])
    {
      match Rooms.IsUserInRoom(db, roomId, userId)
      case Failure(_) =>
        outbox := outbox + [Emission({client}, ExceptionEvent)];
      case Success(false) =>
        outbox := outbox + [Emission({client}, ErrorEvent(JoinDenied))];
      case Success(true) =>
        rooms := rooms[roomId := Members(rooms, roomId) + {client}];
        outbox := outbox + [Emission({client}, JoinedRoom(roomId))];
        outbox := outbox + [Emission(Members(rooms, roomId) - {client}, UserJoined(userId, roomId))];
    }

    /** `leave_room`: no membership check; the socket leaves the room,
        hears `left_room`, and the rest of the room hears `user_left`. */
    method HandleLeaveRoom(client: SocketId, roomId: string, userId: string)
      modifies this`rooms, this`outbox
      ensures Members(rooms, roomId) == Members(old(rooms), roomId) - {client}
      ensures forall r :: r != roomId ==> Members(rooms, r) == Members(old(rooms), r)
      ensures outbox == old(outbox) + [Emission({client}, LeftRoom(roomId)),
                                       Emission(Members(rooms, roomId) - {client}, UserLeft(userId, roomId))]
    {
      if roomId in rooms {
        rooms := rooms[roomId := rooms[roomId] - {client}];
      }
      outbox := outbox + [Emission({client}, LeftRoom(roomId))];
      outbox := outbox + [Emission(Members(rooms, roomId) - {client}, UserLeft(userId, roomId))];
    }

    method HandleSendMessage(client: SocketId, data: SendData, id: string, createdAt: string, now: string)
      modifies this`db, this`outbox
      ensures var e := SendEffect(Members(rooms, data.roomId), old(db), client, data, id, createdAt, now);
              db == e.db && outbox == old(outbox) + e.out
    {
      var access := Rooms.IsUserInRoom(db, data.roomId, data.userId);
      if access.Failure? {
        outbox := outbox + [Emission({client}, ExceptionEvent)];
        return;
      }
      if !access.value {
        outbox := outbox + [Emission({client}, ErrorEvent(SendDenied))];
        return;
      }
      var user := Users.GetUserById(db, data.userId);
      if user.Failure? {
        outbox := outbox + [Emission({client}, ExceptionEvent)];
        return;
      }
      if user.value.None? {
        outbox := outbox + [Emission({client}, ErrorEvent(UnknownSender))];
        return;
      }
      var s := Messages.CreateMessage(db, SendDto(data), id, createdAt);
      db := s.db;
      if s.result.Failure? {
        outbox := outbox + [Emission({client}, ExceptionEvent)];
        return;
      }
      var updated := Rooms.UpdateLastMessage(db, data.roomId, Summary(data.content), now);
      if updated.Failure? {
        outbox := outbox + [Emission({client}, ExceptionEvent)];
        return;
      }
      db := updated.value;
      outbox := outbox + [Emission(Members(rooms, data.roomId), NewMessageEvent(s.result.value))];
    }

    /** `typing`: relayed to the room's other sockets, unchecked and not
        stored. */
    method HandleTyping(client: SocketId, roomId: string, userId: string, isTyping: bool)
      modifies this`outbox
      ensures outbox == old(outbox) + [Emission(Members(rooms, roomId) - {client}, UserTyping(userId, isTyping))]
    {
      outbox := outbox + [Emission(Members(rooms, roomId) - {client}, UserTyping(userId, isTyping))];
    }

    method HandleScanQrCode(client: SocketId, data: ScanData, now: nat, roomId: string, createdAt: string)
      modifies this`db, this`outbox
      ensures var e := ScanEffect(entries, old(db), client, data, now, roomId, createdAt);
              db == e.db && outbox == old(outbox) + e.out
    {
      var user := Users.GetUserById(db, data.userId);
      if user.Failure? {
        outbox := outbox + [Emission({client}, ExceptionEvent)];
        return;
      }
      if user.value.None? {
        outbox := outbox + [Emission({client}, ErrorEvent(InvalidQrCode))];
        return;
      }
      var scannerId := ScanRoomDto(data, now).participantId;
      var s := Rooms.CreateRoom(db, ScanRoomDto(data, now), roomId, createdAt);
      db := s.db;
      if s.result.Failure? {
        outbox := outbox + [Emission({client}, ExceptionEvent)];
        return;
      }
      var room := s.result.value;
      var owner := FindOwnerSocket(data.userId);
      if owner.Some? {
        outbox := outbox + [Emission({owner.value}, QrCodeScanned(room.id, data.scannerNickname, data.scannerAvatar))];
      }
      outbox := outbox + [Emission({client}, RoomCreated(room.id, scannerId))];
    }
  }

  /** Entries are keyed by socket: a user connected twice keeps the second
      registration when the first socket disconnects, and the owner lookup
      then finds the second socket. */
  method SecondTabSurvives() returns (owner: Option<SocketId>, second: SocketId)
    ensures owner == Some(second)
  {
    var gw := new ChatGateway(Db([], [], [], [], {}));
    var first := gw.HandleConnection("u1");
    second := gw.HandleConnection("u1");
    gw.HandleDisconnect(first);
    var both := [Entry(first, "u1"), Entry(second, "u1")];
    assert gw.entries == Without(both, first);
    assert second == first + 1;
    assert both[1..] == [Entry(second, "u1")] && both[1..][1..] == [];
    assert Without(both[1..], first) == [Entry(second, "u1")] + Without([], first);
    assert gw.entries == [Entry(second, "u1")];
    owner := gw.FindOwnerSocket("u1");
  }
}
