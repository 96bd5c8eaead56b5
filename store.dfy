/** The Supabase store the services read and write, as a value: one
    sequence of rows per table, in insertion order, and the set of table
    accesses that currently fail. A read or write whose access is in
    `faults` throws and changes nothing, as the store wrapper throws on any
    error other than "no row". Row ids and timestamps are generated by the
    store; callers pass them in. */
module Store {
  import opened Wrappers

  datatype MessageType = TextKind | ImageKind | FileKind

  datatype UserRow = UserRow(
    id: string, nickname: string, avatar: Option<string>, qrCode: string, createdAt: string)

  datatype RoomRow = RoomRow(
    id: string, ownerId: string, lastMessage: Option<string>, lastMessageTime: Option<string>,
    createdAt: string)

  datatype ParticipantRow = ParticipantRow(
    roomId: string, userId: string, nickname: string, avatar: Option<string>, isOwner: bool)

  datatype MessageRow = MessageRow(
    id: string, roomId: string, senderId: string, senderNickname: string, kind: MessageType,
    content: Option<string>, fileName: Option<string>, fileUrl: Option<string>,
    fileSize: Option<string>, createdAt: string)

  /** A store call that can fail. A user insert (`WriteUsers`) and a user
      update (`UpdateUsers`) fail independently; for the other tables every
      write of one call fails or none does. */
  datatype Op =
    | ReadUsers | WriteUsers | UpdateUsers
    | ReadRooms | WriteRooms
    | ReadParticipants | WriteParticipants
    | ReadMessages | WriteMessages

  datatype Db = Db(
    users: seq<UserRow>,
    rooms: seq<RoomRow>,
    participants: seq<ParticipantRow>,
    messages: seq<MessageRow>,
    faults: set<Op>)

  /** A service call's effect: the store afterwards and what the call
      returned or threw. A call that throws part-way keeps the writes it
      made before the throw. */
  datatype Step<T> = Step(db: Db, result: Result<T>)

  /** The rows of `s` that `keep` accepts, in order. */
  function Filter<T(!new)>(s: seq<T>, keep: T -> bool): (r: seq<T>)
    ensures |r| <= |s|
    ensures forall x :: x in r <==> x in s && keep(x)
  {
    if s == [] then [] else Filter(s[..|s| - 1], keep) + (if keep(s[|s| - 1]) then [s[|s| - 1]] else [])
  }

  /** Filtering an appended row filters the prefix and then the row. */
  lemma FilterAppend<T(!new)>(s: seq<T>, x: T, keep: T -> bool)
    ensures Filter(s + [x], keep) == Filter(s, keep) + (if keep(x) then [x] else [])
  {
    assert (s + [x])[..|s|] == s;
  }

  /** Nothing is kept when no row is accepted. */
  lemma FilterNone<T(!new)>(s: seq<T>, keep: T -> bool)
    requires forall x :: x in s ==> !keep(x)
    ensures Filter(s, keep) == []
  {
    if Filter(s, keep) != [] {
      assert Filter(s, keep)[0] in Filter(s, keep);
    }
  }

  /** PostgREST's `.single()`: a row only when exactly one row matched. Zero
      or several rows give error code PGRST116, which the store reads as
      "no row" (null). */
  function Single<T>(rows: seq<T>): Option<T> {
    if |rows| == 1 then Some(rows[0]) else None
  }

  function Reverse<T(!new)>(s: seq<T>): (r: seq<T>)
    ensures |r| == |s|
    ensures forall x :: x in r <==> x in s
  {
    if s == [] then [] else [s[|s| - 1]] + Reverse(s[..|s| - 1])
  }

  /** `.range(offset, offset + limit - 1)`, clipped to the rows there are. */
  function Window<T(!new)>(s: seq<T>, limit: nat, offset: nat): (r: seq<T>)
    ensures |r| <= limit
    ensures forall x :: x in r ==> x in s
  {
    var lo := if offset <= |s| then offset else |s|;
    var hi := if offset + limit <= |s| then offset + limit else |s|;
    s[lo..hi]
  }

  // ---- users ----

  function UsersWithId(db: Db, id: string): seq<UserRow> {
    Filter(db.users, (u: UserRow) => u.id == id)
  }

  /** The store finds a user for `id`. */
  predicate HasUser(db: Db, id: string) {
    |UsersWithId(db, id)| == 1
  }

  function StoredUser(db: Db, id: string): UserRow
    requires HasUser(db, id)
  {
    UsersWithId(db, id)[0]
  }

  function GetUserById(db: Db, id: string): Result<Option<UserRow>> {
    if ReadUsers in db.faults then Failure("Failed to get user")
    else Success(Single(UsersWithId(db, id)))
  }

  function GetAllUsers(db: Db): Result<seq<UserRow>> {
    if ReadUsers in db.faults then Failure("Failed to get users") else Success(db.users)
  }

  function InsertUser(db: Db, row: UserRow): Result<Db> {
    if WriteUsers in db.faults then Failure("Failed to create user")
    else Success(db.(users := db.users + [row]))
  }

  function UpdateUserQrCode(db: Db, id: string, qrCode: string): Result<Db> {
    if UpdateUsers in db.faults then Failure("Failed to update user")
    else Success(db.(users := seq(|db.users|, i requires 0 <= i < |db.users| =>
                                    if db.users[i].id == id then db.users[i].(qrCode := qrCode)
                                    else db.users[i])))
  }

  // ---- rooms ----

  function RoomsWithId(db: Db, id: string): seq<RoomRow> {
    Filter(db.rooms, (r: RoomRow) => r.id == id)
  }

  function GetRoomById(db: Db, id: string): Result<Option<RoomRow>> {
    if ReadRooms in db.faults then Failure("Failed to get room")
    else Success(Single(RoomsWithId(db, id)))
  }

  /** `userId` has a participant row in `room`. */
  predicate TakesPart(db: Db, room: RoomRow, userId: string) {
    exists p :: p in db.participants && p.roomId == room.id && p.userId == userId
  }

  /** The rooms with a participant row for `userId` (the inner join), in
      store order. */
  function UserRooms(db: Db, userId: string): seq<RoomRow> {
    Filter(db.rooms, (r: RoomRow) => TakesPart(db, r, userId))
  }

  function GetRoomsByUserId(db: Db, userId: string): Result<seq<RoomRow>> {
    if ReadRooms in db.faults then Failure("Failed to get user rooms")
    else Success(UserRooms(db, userId))
  }

  function GetAllRooms(db: Db): Result<seq<RoomRow>> {
    if ReadRooms in db.faults then Failure("Failed to get all rooms") else Success(db.rooms)
  }

  function InsertRoom(db: Db, row: RoomRow): Result<Db> {
    if WriteRooms in db.faults then Failure("Failed to create room")
    else Success(db.(rooms := db.rooms + [row]))
  }

  /** Sets the summary and its time on every room row with id `roomId`. */
  function UpdateRoomLastMessage(db: Db, roomId: string, message: string, now: string): Result<Db> {
    if WriteRooms in db.faults then Failure("Failed to update room last message")
    else Success(db.(rooms := seq(|db.rooms|, i requires 0 <= i < |db.rooms| =>
                                    if db.rooms[i].id == roomId
                                    then db.rooms[i].(lastMessage := Some(message), lastMessageTime := Some(now))
                                    else db.rooms[i])))
  }

  // ---- participants ----

  /** The participant rows of a room, in the order they joined. */
  function ParticipantsOf(db: Db, roomId: string): seq<ParticipantRow> {
    Filter(db.participants, (p: ParticipantRow) => p.roomId == roomId)
  }

  /** A new participant row joins the end of its own room's list only. */
  lemma ParticipantsOfAppend(db: Db, row: ParticipantRow, roomId: string)
    ensures ParticipantsOf(db.(participants := db.participants + [row]), roomId)
            == ParticipantsOf(db, roomId) + (if row.roomId == roomId then [row] else [])
  {
    FilterAppend(db.participants, row, (p: ParticipantRow) => p.roomId == roomId);
  }

  lemma ParticipantsOfUnused(db: Db, roomId: string)
    requires forall p :: p in db.participants ==> p.roomId != roomId
    ensures ParticipantsOf(db, roomId) == []
  {
    FilterNone(db.participants, (p: ParticipantRow) => p.roomId == roomId);
  }

  function MembershipRows(db: Db, roomId: string, userId: string): seq<ParticipantRow> {
    Filter(db.participants, (p: ParticipantRow) => p.roomId == roomId && p.userId == userId)
  }

  lemma MembershipRowsAppend(db: Db, row: ParticipantRow, roomId: string, userId: string)
    ensures MembershipRows(db.(participants := db.participants + [row]), roomId, userId)
            == MembershipRows(db, roomId, userId) + (if row.roomId == roomId && row.userId == userId then [row] else [])
  {
    FilterAppend(db.participants, row, (p: ParticipantRow) => p.roomId == roomId && p.userId == userId);
  }

  lemma MembershipRowsUnused(db: Db, roomId: string, userId: string)
    requires forall p :: p in db.participants ==> p.roomId != roomId
    ensures MembershipRows(db, roomId, userId) == []
  {
    FilterNone(db.participants, (p: ParticipantRow) => p.roomId == roomId && p.userId == userId);
  }

  function GetRoomParticipants(db: Db, roomId: string): Result<seq<ParticipantRow>> {
    if ReadParticipants in db.faults then Failure("Failed to get room participants")
    else Success(ParticipantsOf(db, roomId))
  }

  function AddRoomParticipant(db: Db, row: ParticipantRow): Result<Db> {
    if WriteParticipants in db.faults then Failure("Failed to add room participant")
    else Success(db.(participants := db.participants + [row]))
  }

  /** `isUserInRoom` selects with `.single()`: true only for exactly one row. */
  function IsUserInRoom(db: Db, roomId: string, userId: string): Result<bool> {
    if ReadParticipants in db.faults then Failure("Failed to check user room access")
    else Success(Single(MembershipRows(db, roomId, userId)).Some?)
  }

  // ---- messages ----

  function InsertMessage(db: Db, row: MessageRow): Result<Db> {
    if WriteMessages in db.faults then Failure("Failed to create message")
    else Success(db.(messages := db.messages + [row]))
  }

  function MessagesWithId(db: Db, id: string): seq<MessageRow> {
    Filter(db.messages, (m: MessageRow) => m.id == id)
  }

  function GetMessageById(db: Db, id: string): Result<Option<MessageRow>> {
    if ReadMessages in db.faults then Failure("Failed to get message")
    else Success(Single(MessagesWithId(db, id)))
  }

  /** A room's messages, newest first, windowed by `limit` and `offset`. */
  function MessagesPage(db: Db, roomId: string, limit: nat, offset: nat): seq<MessageRow> {
    Window(Reverse(Filter(db.messages, (m: MessageRow) => m.roomId == roomId)), limit, offset)
  }

  function GetMessagesByRoomId(db: Db, roomId: string, limit: nat, offset: nat): Result<seq<MessageRow>> {
    if ReadMessages in db.faults then Failure("Failed to get messages")
    else Success(MessagesPage(db, roomId, limit, offset))
  }
}
