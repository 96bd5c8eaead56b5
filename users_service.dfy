/** The user service: creating a user with a pairing QR code, reading users,
    and checking a scanned QR payload. */
module Users {
  import opened Wrappers
  import opened Store

  /** What `createUser` reads from its request (its `nickname` and `avatar`). */
  datatype CreateUserDto = CreateUserDto(nickname: string, avatar: Option<string>)

  datatype User = User(
    id: string, nickname: string, avatar: Option<string>, qrCode: string, createdAt: string)

  /** The object serialised into a user's QR code. */
  datatype QrPayload = QrPayload(kind: string, userId: string, timestamp: nat)

  /** A scanned QR string after `JSON.parse`: unparseable, or an object
      whose `type` and `userId` members are present or missing. */
  datatype QrData = Unparseable | Parsed(kind: Option<string>, userId: Option<string>)

  const TempQrCode := "temp"
  const UserQrType := "user_qr"

  /** What `JSON.parse` gives back for a serialised payload. */
  function ReadPayload(p: QrPayload): QrData {
    Parsed(Some(p.kind), Some(p.userId))
  }

  function ToUser(row: UserRow): User {
    User(row.id, row.nickname, row.avatar, row.qrCode, row.createdAt)
  }

  /** `createUser`: insert the user with the placeholder code `'temp'`,
      build the payload for the new id, render it (`render` stands for the
      QR image library) and store the rendered code over the placeholder.
      If the update throws, the user stays stored with `'temp'`. */
  function CreateUser(db: Db, dto: CreateUserDto, id: string, createdAt: string, now: nat,
                      render: QrPayload -> string): (s: Step<User>)
    ensures s.db.rooms == db.rooms && s.db.participants == db.participants
    ensures s.db.messages == db.messages && s.db.faults == db.faults
    ensures s.result.Success? <==> WriteUsers !in db.faults && UpdateUsers !in db.faults
    ensures WriteUsers in db.faults ==> s.db == db
    ensures WriteUsers !in db.faults && UpdateUsers in db.faults ==>
              s.db == db.(users := db.users + [UserRow(id, dto.nickname, dto.avatar, TempQrCode, createdAt)])
    ensures s.result.Success? ==>
              var qr := render(QrPayload(UserQrType, id, now));
              && s.result.value == User(id, dto.nickname, dto.avatar, qr, createdAt)
              && |s.db.users| == |db.users| + 1
              && s.db.users[|db.users|] == UserRow(id, dto.nickname, dto.avatar, qr, createdAt)
              && (forall i :: 0 <= i < |s.db.users| && s.db.users[i].id == id ==>
                    s.db.users[i].qrCode == s.result.value.qrCode)
              && forall i :: 0 <= i < |db.users| && db.users[i].id != id ==> s.db.users[i] == db.users[i]
  {
    match InsertUser(db, UserRow(id, dto.nickname, dto.avatar, TempQrCode, createdAt))
    case Failure(e) => Step(db, Failure(e))
    case Success(db1) =>
      var qr := render(QrPayload(UserQrType, id, now));
      match UpdateUserQrCode(db1, id, qr)
      case Failure(e) => Step(db1, Failure(e))
      case Success(db2) => Step(db2, Success(User(id, dto.nickname, dto.avatar, qr, createdAt)))
  }

  /** With an id the store had not used, the new user is then found by id,
      holding the final code. */
  lemma {:induction false} CreatedUserFound(db: Db, dto: CreateUserDto, id: string, createdAt: string, now: nat,
                                           render: QrPayload -> string)
    requires forall u :: u in db.users ==> u.id != id
    requires CreateUser(db, dto, id, createdAt, now, render).result.Success?
    ensures var s := CreateUser(db, dto, id, createdAt, now, render);
            HasUser(s.db, id) && ToUser(StoredUser(s.db, id)) == s.result.value
  {
    var s := CreateUser(db, dto, id, createdAt, now, render);
    var keep := (u: UserRow) => u.id == id;
    var n := |db.users|;
    var row := s.db.users[n];
    assert s.db.users == s.db.users[..n] + [row];
    assert forall u :: u in s.db.users[..n] ==> u.id != id by {
      forall u | u in s.db.users[..n] ensures u.id != id {
        var i :| 0 <= i < n && s.db.users[..n][i] == u;
        assert db.users[i] in db.users;
        assert s.db.users[i] == db.users[i];
      }
    }
    FilterNone(s.db.users[..n], keep);
    FilterAppend(s.db.users[..n], row, keep);
    assert UsersWithId(s.db, id) == [row];
  }

  /** `validateQrCode`: the user id, only for a parsed object whose `type` is
      `'user_qr'`, whose `userId` is non-empty, and whose user the store
      finds; null otherwise, including when the store read throws. */
  function ValidateQrCode(db: Db, data: QrData): (r: Option<string>)
    ensures r.Some? <==>
              && data.Parsed? && data.kind == Some(UserQrType)
              && data.userId.Some? && data.userId.value != ""
              && ReadUsers !in db.faults && HasUser(db, data.userId.value)
    ensures r.Some? ==> r.value == data.userId.value
  {
    match data
    case Unparseable => None
    case Parsed(kind, userId) =>
      if kind == Some(UserQrType) && userId.Some? && userId.value != "" then
        match GetUserById(db, userId.value)
        case Failure(_) => None
        case Success(None) => None
        case Success(Some(_)) => Some(userId.value)
      else None
  }

  /** A payload built for a stored user validates to that user's id, as
      long as the store finds the user. */
  lemma QrRoundTrip(db: Db, userId: string, timestamp: nat)
    requires userId != "" && ReadUsers !in db.faults && HasUser(db, userId)
    ensures ValidateQrCode(db, ReadPayload(QrPayload(UserQrType, userId, timestamp))) == Some(userId)
  {
  }

  /** The QR payload of a freshly created user validates to the new id. */
  lemma {:induction false} CreatedUserQrValidates(db: Db, dto: CreateUserDto, id: string, createdAt: string,
                                                 now: nat, render: QrPayload -> string)
    requires id != "" && ReadUsers !in db.faults
    requires forall u :: u in db.users ==> u.id != id
    requires CreateUser(db, dto, id, createdAt, now, render).result.Success?
    ensures ValidateQrCode(CreateUser(db, dto, id, createdAt, now, render).db,
                           ReadPayload(QrPayload(UserQrType, id, now))) == Some(id)
  {
    CreatedUserFound(db, dto, id, createdAt, now, render);
    QrRoundTrip(CreateUser(db, dto, id, createdAt, now, render).db, id, now);
  }

  /** `getUserById`: null for an id the store does not find, the stored
      fields otherwise. */
  function GetUserById(db: Db, id: string): (r: Result<Option<User>>)
    ensures r.Failure? <==> ReadUsers in db.faults
    ensures r.Success? ==> (r.value.Some? <==> HasUser(db, id))
    ensures r.Success? && r.value.Some? ==> r.value.value == ToUser(StoredUser(db, id)) && r.value.value.id == id
  {
    match Store.GetUserById(db, id)
    case Failure(e) => Failure(e)
    case Success(None) => Success(None)
    case Success(Some(row)) =>
      assert row in UsersWithId(db, id);
      Success(Some(ToUser(row)))
  }

  /** `getUserQrCode`: null for an unknown id, the stored code otherwise. */
  function GetUserQrCode(db: Db, id: string): (r: Result<Option<string>>)
    ensures r.Failure? <==> ReadUsers in db.faults
    ensures r.Success? ==> (r.value.Some? <==> HasUser(db, id))
    ensures r.Success? && r.value.Some? ==> r.value.value == StoredUser(db, id).qrCode
  {
    match Store.GetUserById(db, id)
    case Failure(e) => Failure(e)
    case Success(row) => Success(if row.Some? then Some(row.value.qrCode) else None)
  }

  /** `getAllUsers`: one user per stored row, in the store's order. */
  function GetAllUsers(db: Db): (r: Result<seq<User>>)
    ensures r.Failure? <==> ReadUsers in db.faults
    ensures r.Success? ==>
              |r.value| == |db.users| && forall i :: 0 <= i < |db.users| ==> r.value[i] == ToUser(db.users[i])
  {
    match Store.GetAllUsers(db)
    case Failure(e) => Failure(e)
    case Success(rows) => Success(seq(|rows|, i requires 0 <= i < |rows| => ToUser(rows[i])))
  }

  /** A user found by id is among the users listed. */
  lemma {:induction false} FoundUserIsListed(db: Db, id: string)
    requires ReadUsers !in db.faults && HasUser(db, id)
    ensures GetUserById(db, id).value.value in GetAllUsers(db).value
  {
    var row := StoredUser(db, id);
    assert row in UsersWithId(db, id);
    var k :| 0 <= k < |db.users| && db.users[k] == row;
    assert GetAllUsers(db).value[k] == ToUser(row);
  }
}
