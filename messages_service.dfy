/** The message service: persisting a message for a known sender, paging a
    room's messages, and the public path of an uploaded file. */
module Messages {
  import opened Wrappers
  import opened Store
  import Strings

  datatype CreateMessageDto = CreateMessageDto(
    roomId: string, senderId: string, kind: MessageType, content: Option<string>,
    fileName: Option<string>, fileUrl: Option<string>, fileSize: Option<string>)

  datatype MessageResponse = MessageResponse(
    id: string, roomId: string, senderId: string, senderNickname: string, kind: MessageType,
    content: Option<string>, fileName: Option<string>, fileUrl: Option<string>,
    fileSize: Option<string>, createdAt: string)

  const SenderMissing := "发送者用户不存在"
  const DefaultLimit: nat := 50
  const DefaultOffset: nat := 0

  /** The fields of a response that a create request supplies. */
  function DtoOf(m: MessageResponse): CreateMessageDto {
    CreateMessageDto(m.roomId, m.senderId, m.kind, m.content, m.fileName, m.fileUrl, m.fileSize)
  }

  /** The row a response was read from. */
  function RowOf(m: MessageResponse): MessageRow {
    MessageRow(m.id, m.roomId, m.senderId, m.senderNickname, m.kind, m.content, m.fileName,
               m.fileUrl, m.fileSize, m.createdAt)
  }

  /** The row inserted for `dto`, with the sender's stored nickname and the
      id and creation time the store assigns. */
  function RowFor(dto: CreateMessageDto, nickname: string, id: string, createdAt: string): (row: MessageRow)
    ensures row.id == id && row.senderNickname == nickname && row.createdAt == createdAt
    ensures row.roomId == dto.roomId && row.senderId == dto.senderId && row.kind == dto.kind
    ensures row.content == dto.content && row.fileName == dto.fileName
    ensures row.fileUrl == dto.fileUrl && row.fileSize == dto.fileSize
  {
    MessageRow(id, dto.roomId, dto.senderId, nickname, dto.kind, dto.content, dto.fileName,
               dto.fileUrl, dto.fileSize, createdAt)
  }

  /** Row to response: a field-by-field copy that loses nothing. */
  function ToResponse(row: MessageRow): (m: MessageResponse)
    ensures RowOf(m) == row
  {
    MessageResponse(row.id, row.roomId, row.senderId, row.senderNickname, row.kind, row.content,
                    row.fileName, row.fileUrl, row.fileSize, row.createdAt)
  }

  /** `createMessage`: the sender must be a stored user, whose stored
      nickname goes into the row; the row is inserted and returned as a
      response. Nothing is written when it throws. */
  function CreateMessage(db: Db, dto: CreateMessageDto, id: string, createdAt: string): (s: Step<MessageResponse>)
    ensures s.result.Failure? ==> s.db == db
    ensures ReadUsers in db.faults ==> s.result.Failure?
    ensures ReadUsers !in db.faults && !HasUser(db, dto.senderId) ==> s.result == Failure(SenderMissing)
    ensures s.result.Success? <==>
              ReadUsers !in db.faults && HasUser(db, dto.senderId) && WriteMessages !in db.faults
    ensures s.result.Success? ==>
              var row := RowFor(dto, StoredUser(db, dto.senderId).nickname, id, createdAt);
              && s.db == db.(messages := db.messages + [row])
              && s.result.value == ToResponse(row)
              && DtoOf(s.result.value) == dto
              && s.result.value.senderNickname == StoredUser(db, dto.senderId).nickname
  {
    match GetUserById(db, dto.senderId)
    case Failure(e) => Step(db, Failure(e))
    case Success(None) => Step(db, Failure(SenderMissing))
    case Success(Some(user)) =>
      var row := RowFor(dto, user.nickname, id, createdAt);
      match InsertMessage(db, row)
      case Failure(e) => Step(db, Failure(e))
      case Success(db') => Step(db', Success(ToResponse(row)))
  }

  /** `getMessagesByRoomId`: the store's page of the room's messages, newest
      first, each row mapped to a response in the same position. */
  function GetMessagesByRoomId(db: Db, roomId: string, limit: nat, offset: nat): (r: Result<seq<MessageResponse>>)
    ensures r.Failure? <==> ReadMessages in db.faults
    ensures r.Success? ==>
              var rows := MessagesPage(db, roomId, limit, offset);
              && |r.value| == |rows| <= limit
              && (forall i :: 0 <= i < |rows| ==> RowOf(r.value[i]) == rows[i])
              && (forall i :: 0 <= i < |rows| ==> r.value[i].roomId == roomId)
  {
    match Store.GetMessagesByRoomId(db, roomId, limit, offset)
    case Failure(e) => Failure(e)
    case Success(rows) =>
      assert forall i :: 0 <= i < |rows| ==> rows[i] in rows;
      Success(seq(|rows|, i requires 0 <= i < |rows| => ToResponse(rows[i])))
  }

  /** `generateFileUrl`: the file sits directly under `/uploads/`. */
  function GenerateFileUrl(filename: string): (url: string)
    ensures Strings.StartsWith(url, "/uploads/") && url[|"/uploads/"|..] == filename
    ensures '/' !in filename ==> Strings.AfterLast(url, '/') == filename
  {
    var url := "/uploads" + ['/'] + filename;
    if '/' in filename then url
    else Strings.AfterLastOfJoin("/uploads", '/', filename); url
  }
}
