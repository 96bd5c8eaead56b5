/** The raw WebSocket service: a registry from user id to that user's one
    live connection, admission that evicts the user's previous socket,
    deletion by user id on a socket's close event, best-effort sends, the
    dispatch of inbound frames, and authorise-persist-broadcast for
    `send_message`. Each async handler is one atomic step; frames written
    to sockets are appended to `outbox`. */
module RawSocket {
  import opened Wrappers
  import opened Store
  import Users
  import Rooms
  import Messages

  type SocketId = nat

  /** A registry entry (`ConnectedUser`). */
  datatype Conn = Conn(ws: SocketId, userId: string, nickname: string, connectedAt: string)

  /** The frames the service writes: `connected`, `error` and `new_message`. */
  datatype Frame =
    | Connected(userId: string, nickname: string, connectedAt: string)
    | ErrorFrame(message: string)
    | NewMessage(msg: Messages.MessageResponse)

  datatype Delivery = Delivery(socket: SocketId, frame: Frame)

  /** The `data` of a `send_message` frame. */
  datatype SendData = SendData(
    roomId: string, kind: MessageType, content: Option<string>,
    fileName: Option<string>, fileUrl: Option<string>)

  /** An inbound frame: text that is not JSON, or a parsed `{type, data}`. */
  datatype Inbound = Malformed | Parsed(kind: string, data: SendData)

  /** What admission decides for a connection's `userId` query value
      (empty when absent). */
  datatype Admission = Refused(reason: string) | Admitted(nickname: string)

  /** The store afterwards and the frames written. */
  datatype Effect = Effect(db: Db, out: seq<Delivery>)

  const MissingUserId := "缺少用户ID参数"
  const UnknownUser := "用户不存在"
  const VerifyFailed := "连接验证失败"
  const MalformedFrame := "消息格式错误"
  const UnknownTypePrefix := "未知的消息类型: "
  const NoPermission := "无权限在该聊天室发送消息"
  const BadConnectionState := "连接状态异常"
  const SendFailed := "发送消息失败"
  const SendMessageType := "send_message"

  /** `handleConnection`'s checks: a user id is given, and the user service
      finds that user; a throwing lookup refuses with its own message. */
  function Admit(db: Db, userId: string): (a: Admission)
    ensures a == Refused(MissingUserId) <==> userId == ""
    ensures a == Refused(VerifyFailed) <==> userId != "" && ReadUsers in db.faults
    ensures a == Refused(UnknownUser) <==> userId != "" && ReadUsers !in db.faults && !HasUser(db, userId)
    ensures a.Admitted? <==> userId != "" && ReadUsers !in db.faults && HasUser(db, userId)
    ensures a.Admitted? ==> a.nickname == StoredUser(db, userId).nickname
  {
    if userId == "" then Refused(MissingUserId)
    else match Users.GetUserById(db, userId)
      case Failure(_) => Refused(VerifyFailed)
      case Success(None) => Refused(UnknownUser)
      case Success(Some(u)) => Admitted(u.nickname)
  }

  /** `sendToUser`: one frame to the user's registered socket when it is
      open, nothing otherwise. */
  function Deliver(conn: map<string, Conn>, openSockets: set<SocketId>, userId: string, frame: Frame)
    : (out: seq<Delivery>)
    ensures out != [] <==> userId in conn && conn[userId].ws in openSockets
    ensures out != [] ==> out == [Delivery(conn[userId].ws, frame)]
  {
    if userId in conn && conn[userId].ws in openSockets then [Delivery(conn[userId].ws, frame)] else []
  }

  /** The user ids of participant rows, in order. */
  function ParticipantIds(rows: seq<ParticipantRow>): (ids: seq<string>)
    ensures |ids| == |rows| && forall i :: 0 <= i < |rows| ==> ids[i] == rows[i].userId
  {
    seq(|rows|, i requires 0 <= i < |rows| => rows[i].userId)
  }

  /** The `forEach` of `broadcastToRoom`: one frame per listed user that is
      registered with an open socket, in list order. */
  function BroadcastDeliveries(conn: map<string, Conn>, openSockets: set<SocketId>, ids: seq<string>, frame: Frame)
    : (out: seq<Delivery>)
    ensures |out| <= |ids|
  {
    if ids == [] then []
    else BroadcastDeliveries(conn, openSockets, ids[..|ids| - 1], frame)
         + Deliver(conn, openSockets, ids[|ids| - 1], frame)
  }

  /** A broadcast reaches exactly the listed users that are registered with
      an open socket, with the frame it was given. */
  lemma {:induction false} BroadcastRecipients(conn: map<string, Conn>, openSockets: set<SocketId>, ids: seq<string>, frame: Frame)
    ensures forall d :: d in BroadcastDeliveries(conn, openSockets, ids, frame) ==>
              d.frame == frame && d.socket in openSockets
              && exists u :: u in ids && u in conn && conn[u].ws == d.socket
    ensures forall u :: u in ids && u in conn && conn[u].ws in openSockets ==>
              Delivery(conn[u].ws, frame) in BroadcastDeliveries(conn, openSockets, ids, frame)
  {
    if ids != [] {
      var init := ids[..|ids| - 1];
      var last := ids[|ids| - 1];
      BroadcastRecipients(conn, openSockets, init, frame);
      assert ids == init + [last];
      forall d | d in BroadcastDeliveries(conn, openSockets, ids, frame)
        ensures exists u :: u in ids && u in conn && conn[u].ws == d.socket
      {
        if d in BroadcastDeliveries(conn, openSockets, init, frame) {
          var u :| u in init && u in conn && conn[u].ws == d.socket;
          assert u in ids;
        } else {
          assert last in ids;
        }
      }
    }
  }

  /** One more listed user adds that user's delivery, if any. */
  lemma BroadcastStep(conn: map<string, Conn>, openSockets: set<SocketId>, ids: seq<string>, i: int, frame: Frame)
    requires 0 <= i < |ids|
    ensures BroadcastDeliveries(conn, openSockets, ids[..i + 1], frame)
            == BroadcastDeliveries(conn, openSockets, ids[..i], frame) + Deliver(conn, openSockets, ids[i], frame)
  {
    assert ids[..i + 1][..i] == ids[..i];
  }

  /** `broadcastToRoom`: a failed participant lookup is swallowed. */
  function BroadcastEffect(conn: map<string, Conn>, openSockets: set<SocketId>, db: Db, roomId: string, frame: Frame)
    : (out: seq<Delivery>)
    ensures ReadParticipants in db.faults ==> out == []
    ensures |out| <= |ParticipantsOf(db, roomId)|
  {
    match GetRoomParticipants(db, roomId)
    case Failure(_) => []
    case Success(rows) => BroadcastDeliveries(conn, openSockets, ParticipantIds(rows), frame)
  }

  /** The message a `send_message` frame asks to create. */
  function DtoFor(userId: string, data: SendData): Messages.CreateMessageDto {
    Messages.CreateMessageDto(data.roomId, userId, data.kind, data.content, data.fileName, data.fileUrl, None)
  }

  /** `handleSendMessage`: membership check, registry check, persistence,
      then broadcast of the persisted message to the room. */
  function SendEffect(conn: map<string, Conn>, openSockets: set<SocketId>, db: Db, userId: string,
                      data: SendData, id: string, createdAt: string): (e: Effect)
    // a sender without a registry entry hears nothing and changes nothing
    ensures userId !in conn ==> e == Effect(db, [])
    // without membership nothing is stored and at most an error is written
    ensures Rooms.IsUserInRoom(db, data.roomId, userId) != Success(true) ==>
              e.db == db && |e.out| <= 1 && forall d :: d in e.out ==> d.frame.ErrorFrame?
    // which error each refusal or failure sends
    ensures Rooms.IsUserInRoom(db, data.roomId, userId).Failure? ==>
              e == Effect(db, Deliver(conn, openSockets, userId, ErrorFrame(SendFailed)))
    ensures Rooms.IsUserInRoom(db, data.roomId, userId) == Success(false) ==>
              e == Effect(db, Deliver(conn, openSockets, userId, ErrorFrame(NoPermission)))
    ensures Rooms.IsUserInRoom(db, data.roomId, userId) == Success(true) && userId in conn
            && Messages.CreateMessage(db, DtoFor(userId, data), id, createdAt).result.Failure? ==>
              e == Effect(db, Deliver(conn, openSockets, userId, ErrorFrame(SendFailed)))
    // errors go to the sender's own open socket only
    ensures forall d :: d in e.out && d.frame.ErrorFrame? ==>
              userId in conn && d.socket == conn[userId].ws && d.socket in openSockets
    // a broadcast carries the message just appended to the store, and
    // reaches only online participants of the room
    ensures forall d :: d in e.out && d.frame.NewMessage? ==>
              && e.db.messages == db.messages + [Messages.RowOf(d.frame.msg)]
              && d.frame.msg.senderId == userId && d.frame.msg.roomId == data.roomId
              && d.socket in openSockets
              && exists u :: u in ParticipantIds(ParticipantsOf(e.db, data.roomId)) && u in conn && conn[u].ws == d.socket
    // a stored message is answered by the room broadcast alone
    ensures var s := Messages.CreateMessage(db, DtoFor(userId, data), id, createdAt);
            Rooms.IsUserInRoom(db, data.roomId, userId) == Success(true) && userId in conn && s.result.Success? ==>
              e == Effect(s.db, BroadcastEffect(conn, openSockets, s.db, data.roomId, NewMessage(s.result.value)))
    // and every online participant gets it
    ensures var s := Messages.CreateMessage(db, DtoFor(userId, data), id, createdAt);
            Rooms.IsUserInRoom(db, data.roomId, userId) == Success(true) && userId in conn
            && s.result.Success? && ReadParticipants !in db.faults ==>
              e.db == s.db
              && forall u :: u in ParticipantIds(ParticipantsOf(s.db, data.roomId)) && u in conn && conn[u].ws in openSockets ==>
                   Delivery(conn[u].ws, NewMessage(s.result.value)) in e.out
  {
    match Rooms.IsUserInRoom(db, data.roomId, userId)
    case Failure(_) => Effect(db, Deliver(conn, openSockets, userId, ErrorFrame(SendFailed)))
    case Success(false) => Effect(db, Deliver(conn, openSockets, userId, ErrorFrame(NoPermission)))
    case Success(true) =>
      if userId !in conn then Effect(db, Deliver(conn, openSockets, userId, ErrorFrame(BadConnectionState)))
      else
        var s := Messages.CreateMessage(db, DtoFor(userId, data), id, createdAt);
        match s.result
        case Failure(_) => Effect(s.db, Deliver(conn, openSockets, userId, ErrorFrame(SendFailed)))
        case Success(m) =>
          assert Messages.RowOf(m) == Messages.RowFor(DtoFor(userId, data), StoredUser(db, userId).nickname, id, createdAt);
          BroadcastRecipients(conn, openSockets, ParticipantIds(ParticipantsOf(s.db, data.roomId)), NewMessage(m));
          Effect(s.db, BroadcastEffect(conn, openSockets, s.db, data.roomId, NewMessage(m)))
  }

  /** `handleMessage`: `send_message` goes to the send handler; any other
      type, and text that is not JSON, earn the sender an error. */
  function DispatchEffect(conn: map<string, Conn>, openSockets: set<SocketId>, db: Db, userId: string,
                          inbound: Inbound, id: string, createdAt: string): (e: Effect)
    ensures inbound.Parsed? && inbound.kind == SendMessageType ==>
              e == SendEffect(conn, openSockets, db, userId, inbound.data, id, createdAt)
    ensures inbound.Malformed? || inbound.kind != SendMessageType ==>
              && e.db == db && |e.out| <= 1
              && forall d :: d in e.out ==>
                   && userId in conn && d.socket == conn[userId].ws
                   && d.frame == ErrorFrame(if inbound.Malformed? then MalformedFrame
                                            else UnknownTypePrefix + inbound.kind)
    // the error reaches the sender whenever the sender's socket is open
    ensures inbound.Malformed? ==>
              e == Effect(db, Deliver(conn, openSockets, userId, ErrorFrame(MalformedFrame)))
    ensures inbound.Parsed? && inbound.kind != SendMessageType ==>
              e == Effect(db, Deliver(conn, openSockets, userId, ErrorFrame(UnknownTypePrefix + inbound.kind)))
  {
    match inbound
    case Malformed => Effect(db, Deliver(conn, openSockets, userId, ErrorFrame(MalformedFrame)))
    case Parsed(kind, data) =>
      if kind == SendMessageType then SendEffect(conn, openSockets, db, userId, data, id, createdAt)
      else Effect(db, Deliver(conn, openSockets, userId, ErrorFrame(UnknownTypePrefix + kind)))
  }

  class WebSocketService {
    /** `connectedUsers`: user id to that user's live connection. */
    var connected: map<string, Conn>
    /** The sockets whose `readyState` is OPEN. */
    var openSockets: set<SocketId>
    /** The sockets carrying a close handler, and the user it disconnects. */
    var listeners: map<SocketId, string>
    var outbox: seq<Delivery>
    var db: Db
    /** The next socket id the server hands out. */
    var nextSocket: nat

    /** Every entry is keyed by its own user, and its socket's close
        handler disconnects that user; every socket in use was handed out. */
    ghost predicate Valid()
      reads this
    {
      && (forall u :: u in connected ==> connected[u].userId == u)
      && (forall u :: u in connected ==> connected[u].ws in listeners && listeners[connected[u].ws] == u)
      && (forall s :: s in listeners ==> s < nextSocket)
      && (forall s :: s in openSockets ==> s < nextSocket)
    }

    constructor(db: Db)
      ensures Valid()
      ensures connected == map[] && openSockets == {} && listeners == map[] && outbox == []
      ensures this.db == db && nextSocket == 0
    {
      connected := map[];
      openSockets := {};
      listeners := map[];
      outbox := [];
      this.db := db;
      nextSocket := 0;
    }

    /** No two registered users share a socket. */
    lemma DistinctSockets(u: string, v: string)
      requires Valid() && u in connected && v in connected && u != v
      ensures connected[u].ws != connected[v].ws
    {
      assert listeners[connected[u].ws] == u && listeners[connected[v].ws] == v;
    }

    /** `ws.close()`: the socket stops being OPEN; its close event comes
        later, as `SocketClosed`. */
    method Close(ws: SocketId)
      modifies this`openSockets
      ensures openSockets == old(openSockets) - {ws}
    {
      openSockets := openSockets - {ws};
    }

    method SendToUser(userId: string, frame: Frame)
      modifies this`outbox
      ensures outbox == old(outbox) + Deliver(connected, openSockets, userId, frame)
    {
      if userId in connected && connected[userId].ws in openSockets {
        outbox := outbox + [Delivery(connected[userId].ws, frame)];
      }
    }

    method SendError(ws: SocketId, message: string)
      modifies this`outbox
      ensures outbox == old(outbox) + (if ws in openSockets then [Delivery(ws, ErrorFrame(message))] else [])
    {
      if ws in openSockets {
        outbox := outbox + [Delivery(ws, ErrorFrame(message))];
      }
    }

    method SendErrorToUser(userId: string, message: string)
      modifies this`outbox
      ensures outbox == old(outbox) + Deliver(connected, openSockets, userId, ErrorFrame(message))
    {
      SendToUser(userId, ErrorFrame(message));
    }

    /** The socket admission evicts: the user's registered one, if any. */
    function Evicted(userId: string): set<SocketId>
      reads this
    {
      if userId in connected then {connected[userId].ws} else {}
    }

    /** A refused connection: one error frame on the new socket, which is
        then closed. */
    method Refuse(ws: SocketId, reason: string)
      requires ws in openSockets
      modifies this`openSockets, this`outbox
      ensures openSockets == old(openSockets) - {ws}
      ensures outbox == old(outbox) + [Delivery(ws, ErrorFrame(reason))]
    {
      SendError(ws, reason);
      Close(ws);
    }

    /** An admitted connection: the user's previous socket is closed, the
        entry is replaced, the new socket's close handler is registered and
        the user is sent `connected`. */
    method Register(ws: SocketId, userId: string, nick: string, now: string)
      requires Valid() && ws in openSockets && ws !in listeners
      modifies this`connected, this`listeners, this`openSockets, this`outbox
      ensures Valid()
      ensures connected == old(connected)[userId := Conn(ws, userId, nick, now)]
      ensures listeners == old(listeners)[ws := userId]
      ensures openSockets == old(openSockets) - old(Evicted(userId))
      ensures outbox == old(outbox) + [Delivery(ws, Connected(userId, nick, now))]
    {
      if userId in connected {
        Close(connected[userId].ws);
      }
      connected := connected[userId := Conn(ws, userId, nick, now)];
      listeners := listeners[ws := userId];
      SendToUser(userId, Connected(userId, nick, now));
    }

    /** `handleConnection` for a new socket, returned as `ws`: refused
        connections get one error frame and are closed; an admitted user's
        previous socket is closed and replaced by the new entry. */
    method HandleConnection(userId: string, now: string) returns (ws: SocketId)
      requires Valid()
      modifies this
      ensures Valid()
      ensures ws == old(nextSocket) && nextSocket == old(nextSocket) + 1 && db == old(db)
      ensures Admit(db, userId).Refused? ==>
                && connected == old(connected) && listeners == old(listeners)
                && openSockets == old(openSockets)
                && outbox == old(outbox) + [Delivery(ws, ErrorFrame(Admit(db, userId).reason))]
      ensures Admit(db, userId).Admitted? ==>
                var nick := Admit(db, userId).nickname;
                && connected == old(connected)[userId := Conn(ws, userId, nick, now)]
                && listeners == old(listeners)[ws := userId]
                && openSockets == old(openSockets) - old(Evicted(userId)) + {ws}
                && outbox == old(outbox) + [Delivery(ws, Connected(userId, nick, now))]
    {
      ws := nextSocket;
      nextSocket := nextSocket + 1;
      openSockets := openSockets + {ws};
      match Admit(db, userId)
      case Refused(reason) =>
        Refuse(ws, reason);
      case Admitted(nick) =>
        Register(ws, userId, nick, now);
    }

    /** `handleDisconnect`: deletes the user's entry, whatever socket it
        holds. */
    method HandleDisconnect(userId: string)
      modifies this`connected
      ensures connected == old(connected) - {userId}
    {
      if userId in connected {
        connected := connected - {userId};
      }
    }

    /** A socket's close event: it is no longer OPEN and, if admission
        registered a close handler on it, that handler disconnects its user. */
    method SocketClosed(ws: SocketId)
      requires Valid()
      modifies this
      ensures Valid()
      ensures openSockets == old(openSockets) - {ws} && listeners == old(listeners) - {ws}
      ensures connected == if ws in old(listeners) then old(connected) - {old(listeners)[ws]} else old(connected)
      ensures outbox == old(outbox) && db == old(db) && nextSocket == old(nextSocket)
    {
      openSockets := openSockets - {ws};
      if ws in listeners {
        var u := listeners[ws];
        listeners := listeners - {ws};
        HandleDisconnect(u);
      }
    }

    /** The `forEach` of `broadcastToRoom` over the listed user ids. */
    method DeliverAll(ids: seq<string>, frame: Frame) returns (onlineCount: nat)
      modifies this`outbox
      ensures outbox == old(outbox) + BroadcastDeliveries(connected, openSockets, ids, frame)
      ensures onlineCount == |BroadcastDeliveries(connected, openSockets, ids, frame)|
    {
      var conn, live := connected, openSockets;
      var sent: seq<Delivery> := [];
      var i := 0;
      while i < |ids|
        invariant 0 <= i <= |ids|
        invariant sent == BroadcastDeliveries(conn, live, ids[..i], frame)
        invariant outbox == old(outbox)
      {
        BroadcastStep(conn, live, ids, i, frame);
        sent := sent + Deliver(conn, live, ids[i], frame);
        i := i + 1;
      }
      assert ids[..|ids|] == ids;
      outbox := outbox + sent;
      onlineCount := |sent|;
    }

    /** `broadcastToRoom`, returning `onlineCount`. */
    method BroadcastToRoom(roomId: string, frame: Frame) returns (onlineCount: nat)
      modifies this`outbox
      ensures outbox == old(outbox) + BroadcastEffect(connected, openSockets, db, roomId, frame)
      ensures onlineCount == |BroadcastEffect(connected, openSockets, db, roomId, frame)|
      ensures onlineCount <= |ParticipantsOf(db, roomId)|
    {
      match GetRoomParticipants(db, roomId)
      case Failure(_) =>
        onlineCount := 0;
      case Success(rows) =>
        onlineCount := DeliverAll(ParticipantIds(rows), frame);
    }

    method HandleSendMessage(userId: string, data: SendData, id: string, createdAt: string)
      modifies this
      ensures connected == old(connected) && openSockets == old(openSockets)
      ensures listeners == old(listeners) && nextSocket == old(nextSocket)
      ensures var e := SendEffect(old(connected), old(openSockets), old(db), userId, data, id, createdAt);
              db == e.db && outbox == old(outbox) + e.out
    {
      var access := Rooms.IsUserInRoom(db, data.roomId, userId);
      if access.Failure? {
        SendErrorToUser(userId, SendFailed);
        return;
      }
      if !access.value {
        SendErrorToUser(userId, NoPermission);
        return;
      }
      if userId !in connected {
        SendErrorToUser(userId, BadConnectionState);
        return;
      }
      var s := Messages.CreateMessage(db, DtoFor(userId, data), id, createdAt);
      db := s.db;
      if s.result.Failure? {
        SendErrorToUser(userId, SendFailed);
        return;
      }
      var onlineCount := BroadcastToRoom(data.roomId, NewMessage(s.result.value));
    }

    method HandleMessage(userId: string, inbound: Inbound, id: string, createdAt: string)
      modifies this
      ensures connected == old(connected) && openSockets == old(openSockets)
      ensures listeners == old(listeners) && nextSocket == old(nextSocket)
      ensures var e := DispatchEffect(old(connected), old(openSockets), old(db), userId, inbound, id, createdAt);
              db == e.db && outbox == old(outbox) + e.out
    {
      match inbound
      case Malformed =>
        SendErrorToUser(userId, MalformedFrame);
      case Parsed(kind, data) =>
        if kind == SendMessageType {
          HandleSendMessage(userId, data, id, createdAt);
        } else {
          SendErrorToUser(userId, UnknownTypePrefix + kind);
        }
    }
  }

  /** Disconnect deletes by user id without comparing sockets: when the
      close event of an evicted socket arrives after its user reconnected,
      it removes the new registration although the new socket is still
      open. */
  method EvictionRace() returns (firstOpen: bool, secondOpen: bool, registered: bool)
    ensures !firstOpen && secondOpen && !registered
  {
    var user := UserRow("u1", "Alice", None, "qr", "t0");
    var db := Db([user], [], [], [], {});
    FilterAppend([], user, (u: UserRow) => u.id == "u1");
    assert [] + [user] == db.users;
    assert UsersWithId(db, "u1") == [user];
    var svc := new WebSocketService(db);
    var first := svc.HandleConnection("u1", "t1");
    var second := svc.HandleConnection("u1", "t2");
    // the second admission closed `first`; its close event now arrives
    svc.SocketClosed(first);
    firstOpen := first in svc.openSockets;
    secondOpen := second in svc.openSockets;
    registered := "u1" in svc.connected;
  }
}
