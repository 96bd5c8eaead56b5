/** The room service: creating a room with its owner and one other
    participant, reading rooms with their participants, the room summary
    update and the membership check. */
module Rooms {
  import opened Wrappers
  import opened Store

  datatype CreateRoomDto = CreateRoomDto(
    ownerId: string, participantId: string, participantNickname: string,
    participantAvatar: Option<string>)

  datatype ParticipantDto = ParticipantDto(
    id: string, nickname: string, avatar: Option<string>, isOwner: bool)

  datatype RoomResponse = RoomResponse(
    id: string, ownerId: string, participants: seq<ParticipantDto>,
    lastMessage: Option<string>, lastMessageTime: Option<string>, createdAt: string)

  /** Nickname given to an owner the store does not know. */
  const OwnerFallbackNickname := "房主"

  function ToParticipant(p: ParticipantRow): ParticipantDto {
    ParticipantDto(p.userId, p.nickname, p.avatar, p.isOwner)
  }

  /** The participant rows as DTOs, one per row, in order. */
  function ToParticipants(rows: seq<ParticipantRow>): (ds: seq<ParticipantDto>)
    ensures |ds| == |rows|
    ensures forall i :: 0 <= i < |rows| ==> ds[i].id == rows[i].userId && ds[i].isOwner == rows[i].isOwner
  {
    seq(|rows|, i requires 0 <= i < |rows| => ToParticipant(rows[i]))
  }

  /** `last_message_time ? new Date(...) : undefined`: an empty or missing
      time gives no time. */
  function LastMessageTime(row: RoomRow): (t: Option<string>)
    ensures t.None? <==> row.lastMessageTime.None? || row.lastMessageTime.value == ""
    ensures t.Some? ==> t == row.lastMessageTime
  {
    match row.lastMessageTime
    case Some(time) => if time != "" then Some(time) else None
    case None => None
  }

  function ToRoom(row: RoomRow, parts: seq<ParticipantRow>): (r: RoomResponse)
    ensures r.id == row.id && r.ownerId == row.ownerId && r.lastMessage == row.lastMessage
    ensures r.participants == ToParticipants(parts)
    ensures r.lastMessageTime.None? <==> row.lastMessageTime.None? || row.lastMessageTime.value == ""
  {
    RoomResponse(row.id, row.ownerId, ToParticipants(parts), row.lastMessage, LastMessageTime(row), row.createdAt)
  }

  /** The owner's participant nickname: the stored one, or the fallback. */
  function OwnerNickname(db: Db, ownerId: string): string {
    if HasUser(db, ownerId) then StoredUser(db, ownerId).nickname else OwnerFallbackNickname
  }

  function OwnerAvatar(db: Db, ownerId: string): Option<string> {
    if HasUser(db, ownerId) then StoredUser(db, ownerId).avatar else None
  }

  function OwnerRow(db: Db, dto: CreateRoomDto, roomId: string): ParticipantRow {
    ParticipantRow(roomId, dto.ownerId, OwnerNickname(db, dto.ownerId), OwnerAvatar(db, dto.ownerId), true)
  }

  function GuestRow(dto: CreateRoomDto, roomId: string): ParticipantRow {
    ParticipantRow(roomId, dto.participantId, dto.participantNickname, dto.participantAvatar, false)
  }

  function NewRoomRow(dto: CreateRoomDto, roomId: string, createdAt: string): RoomRow {
    RoomRow(roomId, dto.ownerId, None, None, createdAt)
  }

  /** `createRoom`: insert the room, look the owner up, insert the owner
      and then the other participant, and read the participants back.
      Each step may throw; the writes before it stay. */
  function CreateRoom(db: Db, dto: CreateRoomDto, roomId: string, createdAt: string): (s: Step<RoomResponse>)
    ensures s.db.users == db.users && s.db.messages == db.messages && s.db.faults == db.faults
    ensures s.result.Success? <==>
              WriteRooms !in db.faults && ReadUsers !in db.faults
              && WriteParticipants !in db.faults && ReadParticipants !in db.faults
    ensures WriteRooms in db.faults ==> s.db == db
    ensures WriteRooms !in db.faults ==> s.db.rooms == db.rooms + [NewRoomRow(dto, roomId, createdAt)]
    ensures WriteRooms !in db.faults && ReadUsers !in db.faults && WriteParticipants !in db.faults ==>
              s.db.participants == db.participants + [OwnerRow(db, dto, roomId), GuestRow(dto, roomId)]
    ensures (WriteRooms in db.faults || ReadUsers in db.faults || WriteParticipants in db.faults) ==>
              s.db.participants == db.participants
    ensures s.result.Success? ==>
              && s.result.value.id == roomId
              && s.result.value.ownerId == dto.ownerId
              && s.result.value.participants == ToParticipants(ParticipantsOf(s.db, roomId))
              && s.result.value.lastMessage.None? && s.result.value.lastMessageTime.None?
  {
    var roomRow := NewRoomRow(dto, roomId, createdAt);
    match InsertRoom(db, roomRow)
    case Failure(e) => Step(db, Failure(e))
    case Success(db1) =>
      match GetUserById(db1, dto.ownerId)
      case Failure(e) => Step(db1, Failure(e))
      case Success(owner) =>
        assert UsersWithId(db1, dto.ownerId) == UsersWithId(db, dto.ownerId);
        var ownerRow := ParticipantRow(roomId, dto.ownerId,
                                       if owner.Some? then owner.value.nickname else OwnerFallbackNickname,
                                       if owner.Some? then owner.value.avatar else None, true);
        assert ownerRow == OwnerRow(db, dto, roomId);
        match AddRoomParticipant(db1, ownerRow)
        case Failure(e) => Step(db1, Failure(e))
        case Success(db2) =>
          match AddRoomParticipant(db2, GuestRow(dto, roomId))
          case Failure(e) => Step(db2, Failure(e))
          case Success(db3) =>
            match GetRoomParticipants(db3, roomId)
            case Failure(e) => Step(db3, Failure(e))
            case Success(parts) => Step(db3, Success(ToRoom(roomRow, parts)))
  }

  /** In a room id no participant row used before, the created room has
      exactly two participants: the owner, flagged owner, with the stored
      or fallback nickname, then the other participant, not flagged, with
      the id, nickname and avatar of the request. */
  lemma {:induction false} CreatedRoomParticipants(db: Db, dto: CreateRoomDto, roomId: string, createdAt: string)
    requires forall p :: p in db.participants ==> p.roomId != roomId
    requires CreateRoom(db, dto, roomId, createdAt).result.Success?
    ensures CreateRoom(db, dto, roomId, createdAt).result.value.participants == [
              ParticipantDto(dto.ownerId, OwnerNickname(db, dto.ownerId), OwnerAvatar(db, dto.ownerId), true),
              ParticipantDto(dto.participantId, dto.participantNickname, dto.participantAvatar, false)]
  {
    var s := CreateRoom(db, dto, roomId, createdAt);
    var o, g := OwnerRow(db, dto, roomId), GuestRow(dto, roomId);
    var db2 := db.(participants := db.participants + [o]);
    ParticipantsOfUnused(db, roomId);
    ParticipantsOfAppend(db, o, roomId);
    ParticipantsOfAppend(db2, g, roomId);
    assert s.db.participants == db2.participants + [g];
    assert ParticipantsOf(s.db, roomId) == ParticipantsOf(db2.(participants := db2.participants + [g]), roomId);
  }

  /** In a fresh room whose two participants differ, both pass the
      membership check afterwards. */
  lemma {:induction false} CreatedRoomMembers(db: Db, dto: CreateRoomDto, roomId: string, createdAt: string)
    requires forall p :: p in db.participants ==> p.roomId != roomId
    requires dto.ownerId != dto.participantId
    requires CreateRoom(db, dto, roomId, createdAt).result.Success?
    ensures var db' := CreateRoom(db, dto, roomId, createdAt).db;
            IsUserInRoom(db', roomId, dto.ownerId) == Success(true)
            && IsUserInRoom(db', roomId, dto.participantId) == Success(true)
  {
    var s := CreateRoom(db, dto, roomId, createdAt);
    var o, g := OwnerRow(db, dto, roomId), GuestRow(dto, roomId);
    var db2 := db.(participants := db.participants + [o]);
    assert s.db.participants == db2.participants + [g];
    forall u | u == dto.ownerId || u == dto.participantId
      ensures |MembershipRows(s.db, roomId, u)| == 1
    {
      MembershipRowsUnused(db, roomId, u);
      MembershipRowsAppend(db, o, roomId, u);
      MembershipRowsAppend(db2, g, roomId, u);
      assert MembershipRows(s.db, roomId, u) == MembershipRows(db2.(participants := db2.participants + [g]), roomId, u);
    }
  }

  /** A room whose owner is also its other participant holds two rows for
      that user, so `.single()` misses and the owner fails the membership
      check. */
  lemma {:induction false} SelfPairedOwnerNotMember(db: Db, dto: CreateRoomDto, roomId: string, createdAt: string)
    requires forall p :: p in db.participants ==> p.roomId != roomId
    requires dto.ownerId == dto.participantId
    requires CreateRoom(db, dto, roomId, createdAt).result.Success?
    ensures IsUserInRoom(CreateRoom(db, dto, roomId, createdAt).db, roomId, dto.ownerId) == Success(false)
  {
    var s := CreateRoom(db, dto, roomId, createdAt);
    var o, g := OwnerRow(db, dto, roomId), GuestRow(dto, roomId);
    var db2 := db.(participants := db.participants + [o]);
    assert s.db.participants == db2.participants + [g];
    MembershipRowsUnused(db, roomId, dto.ownerId);
    MembershipRowsAppend(db, o, roomId, dto.ownerId);
    MembershipRowsAppend(db2, g, roomId, dto.ownerId);
    assert MembershipRows(s.db, roomId, dto.ownerId) == MembershipRows(db2.(participants := db2.participants + [g]), roomId, dto.ownerId);
  }

  /** `getRoomById`: null for an unknown room, decided before any
      participant is read, so a failing participant read does not matter. */
  function GetRoomById(db: Db, roomId: string): (r: Result<Option<RoomResponse>>)
    ensures ReadRooms in db.faults ==> r.Failure?
    ensures ReadRooms !in db.faults && |RoomsWithId(db, roomId)| != 1 ==> r == Success(None)
    // the call fails exactly when a read it makes fails
    ensures r.Success? <==>
              ReadRooms !in db.faults && (|RoomsWithId(db, roomId)| != 1 || ReadParticipants !in db.faults)
    // and a stored room is found
    ensures r.Success? ==> (r.value.Some? <==> |RoomsWithId(db, roomId)| == 1)
    ensures r.Success? && r.value.Some? ==>
              && |RoomsWithId(db, roomId)| == 1
              && r.value.value == ToRoom(RoomsWithId(db, roomId)[0], ParticipantsOf(db, roomId))
              && r.value.value.id == roomId
  {
    match Store.GetRoomById(db, roomId)
    case Failure(e) => Failure(e)
    case Success(None) => Success(None)
    case Success(Some(row)) =>
      assert row in RoomsWithId(db, roomId);
      match GetRoomParticipants(db, roomId)
      case Failure(e) => Failure(e)
      case Success(parts) => Success(Some(ToRoom(row, parts)))
  }

  /** Each room row with its participants, in the rows' order; the first
      failing participant read fails the whole list (`Promise.all`). */
  function WithParticipants(db: Db, rows: seq<RoomRow>): (r: Result<seq<RoomResponse>>)
    ensures r.Failure? <==> 0 < |rows| && ReadParticipants in db.faults
    ensures r.Success? ==>
              && |r.value| == |rows|
              && forall i :: 0 <= i < |rows| ==>
                   r.value[i] == ToRoom(rows[i], ParticipantsOf(db, rows[i].id))
  {
    if rows == [] then Success([])
    else
      match GetRoomParticipants(db, rows[0].id)
      case Failure(e) => Failure(e)
      case Success(parts) =>
        match WithParticipants(db, rows[1..])
        case Failure(e) => Failure(e)
        case Success(rest) => Success([ToRoom(rows[0], parts)] + rest)
  }

  /** `getRoomsByUserId`: one response per room the user takes part in, in
      store order, each with its participants; a failing read of either
      table fails the whole call. */
  function GetRoomsByUserId(db: Db, userId: string): (r: Result<seq<RoomResponse>>)
    ensures r.Failure? <==>
              ReadRooms in db.faults || (0 < |UserRooms(db, userId)| && ReadParticipants in db.faults)
    ensures r.Success? ==>
              && |r.value| == |UserRooms(db, userId)| <= |db.rooms|
              && forall i :: 0 <= i < |r.value| ==>
                   var room := UserRooms(db, userId)[i];
                   r.value[i] == ToRoom(room, ParticipantsOf(db, room.id)) && TakesPart(db, room, userId)
    // every room the user takes part in is returned
    ensures r.Success? ==>
              forall room :: room in db.rooms && TakesPart(db, room, userId) ==>
                exists i :: 0 <= i < |r.value| && r.value[i] == ToRoom(room, ParticipantsOf(db, room.id))
  {
    match Store.GetRoomsByUserId(db, userId)
    case Failure(e) => Failure(e)
    case Success(rows) =>
      var r := WithParticipants(db, rows);
      assert forall i :: 0 <= i < |rows| ==> rows[i] in rows;
      r
  }

  /** `getAllRooms`: one response per stored room, in store order. */
  function GetAllRooms(db: Db): (r: Result<seq<RoomResponse>>)
    ensures r.Failure? <==> ReadRooms in db.faults || (0 < |db.rooms| && ReadParticipants in db.faults)
    ensures r.Success? ==>
              && |r.value| == |db.rooms|
              && forall i :: 0 <= i < |db.rooms| ==>
                   r.value[i] == ToRoom(db.rooms[i], ParticipantsOf(db, db.rooms[i].id)) && r.value[i].id == db.rooms[i].id
  {
    match Store.GetAllRooms(db)
    case Failure(e) => Failure(e)
    case Success(rows) => WithParticipants(db, rows)
  }

  /** A room found by id is among the rooms listed. */
  lemma {:induction false} FoundRoomIsListed(db: Db, roomId: string)
    requires GetRoomById(db, roomId).Success? && GetRoomById(db, roomId).value.Some?
    requires GetAllRooms(db).Success?
    ensures GetRoomById(db, roomId).value.value in GetAllRooms(db).value
  {
    var row := RoomsWithId(db, roomId)[0];
    assert row in RoomsWithId(db, roomId);
    var k :| 0 <= k < |db.rooms| && db.rooms[k] == row;
    assert GetAllRooms(db).value[k] == GetRoomById(db, roomId).value.value;
  }

  /** `updateLastMessage`: the summary and its time are set on the room
      named, and on nothing else. */
  function UpdateLastMessage(db: Db, roomId: string, message: string, now: string): (r: Result<Db>)
    ensures r.Failure? <==> WriteRooms in db.faults
    ensures r.Success? ==>
              && r.value == db.(rooms := r.value.rooms)
              && |r.value.rooms| == |db.rooms|
              && forall i :: 0 <= i < |db.rooms| ==>
                   r.value.rooms[i] == if db.rooms[i].id == roomId
                                       then db.rooms[i].(lastMessage := Some(message), lastMessageTime := Some(now))
                                       else db.rooms[i]
  {
    UpdateRoomLastMessage(db, roomId, message, now)
  }

  /** `isUserInRoom`: the user is in the room when the store holds exactly
      one participant row for the pair. */
  function IsUserInRoom(db: Db, roomId: string, userId: string): (r: Result<bool>)
    ensures r.Failure? <==> ReadParticipants in db.faults
    ensures r.Success? ==> (r.value <==> |MembershipRows(db, roomId, userId)| == 1)
  {
    Store.IsUserInRoom(db, roomId, userId)
  }
}
