/** The HTTP messages controller: the guard order of a file upload, the
    message it then creates, the query defaults of the paged listing, and
    the not-found answer for a single message. The controller has no state
    of its own; it threads the store through the message service. */
module MessagesApi {
  import opened Wrappers
  import opened Store
  import opened Strings
  import Messages
  import Storage

  /** How a request ends: a body, an `HttpException` the handler throws, or
      a rejection from the service that no handler catch converts. */
  datatype Reply<T> = Ok(value: T) | HttpError(status: nat, message: string) | Rejected(error: string)

  /** The store after a request and its reply. */
  datatype Outcome<T> = Outcome(db: Db, reply: Reply<T>)

  /** The text fields of an upload request. */
  datatype UploadBody = UploadBody(roomId: string, senderId: string)

  const BadRequest: nat := 400
  const NotFound: nat := 404
  const InternalError: nat := 500

  const NoFile := "请选择文件"
  const UnsupportedType := "不支持的文件类型"
  const FileTooLarge := "文件过大"
  const UploadFailedPrefix := "文件上传失败: "
  const MessageMissing := "消息不存在"
  const NicknamePrefix := "用户"
  const UploadFolder := "messages"
  const ImagePrefix := "image/"

  function Lift<T>(r: Result<T>): (reply: Reply<T>)
    ensures reply.Ok? <==> r.Success?
    ensures r.Success? ==> reply.value == r.value
    ensures r.Failure? ==> reply == Rejected(r.error)
  {
    match r
    case Success(v) => Ok(v)
    case Failure(e) => Rejected(e)
  }

  /** The nickname the controller derives for a sender: the prefix `用户`
      and at most the first eight characters of the id. The service
      ignores it and uses the stored nickname. */
  function DerivedNickname(senderId: string): (nick: string)
    ensures StartsWith(nick, NicknamePrefix)
    ensures |nick| == |NicknamePrefix| + (if |senderId| < 8 then |senderId| else 8)
    ensures StartsWith(senderId, nick[|NicknamePrefix|..])
  {
    var suffix := Take(senderId, 8);
    assert (NicknamePrefix + suffix)[|NicknamePrefix|..] == suffix;
    NicknamePrefix + suffix
  }

  /** `createMessage`: the service call's result, whose nickname is the
      stored one whatever the controller derived. */
  function CreateMessage(db: Db, dto: Messages.CreateMessageDto, id: string, createdAt: string)
    : (r: Outcome<Messages.MessageResponse>)
    ensures r.reply.Ok? <==>
              ReadUsers !in db.faults && HasUser(db, dto.senderId) && WriteMessages !in db.faults
    ensures !r.reply.Ok? ==> r.reply.Rejected? && r.db == db
    ensures r.reply.Ok? ==>
              && Messages.DtoOf(r.reply.value) == dto
              && r.reply.value.senderNickname == StoredUser(db, dto.senderId).nickname
              && r.db.messages == db.messages + [Messages.RowOf(r.reply.value)]
  {
    var s := Messages.CreateMessage(db, dto, id, createdAt);
    Outcome(s.db, Lift(s.result))
  }

  /** The message an upload records: no text, the original name, the
      storage URL and the rendered size; an image exactly when the
      mimetype starts with `image/`. */
  function UploadDto(body: UploadBody, file: Storage.UploadedFile, url: string, sizeText: string)
    : (dto: Messages.CreateMessageDto)
    ensures dto.kind == ImageKind <==> StartsWith(file.mimeType, ImagePrefix)
    ensures dto.kind != TextKind
    ensures dto.content.None? && dto.fileName == Some(file.originalName) && dto.fileUrl == Some(url)
    ensures dto.roomId == body.roomId && dto.senderId == body.senderId && dto.fileSize == Some(sizeText)
  {
    var kind := if StartsWith(file.mimeType, ImagePrefix) then ImageKind else FileKind;
    Messages.CreateMessageDto(body.roomId, body.senderId, kind, None, Some(file.originalName),
                              Some(url), Some(sizeText))
  }

  /** `uploadFile`: three 400 guards in order, then the upload to the
      `messages` folder, whose failure is a 500, then the message. The
      service call is returned without being awaited, so its rejection
      escapes the handler's catch. `uuid`, the bucket's answer and the
      rendered size stand for the generators and the bucket. */
  function UploadFile(db: Db, file: Option<Storage.UploadedFile>, body: UploadBody, uuid: string,
                      uploadError: Option<string>, publicUrl: string, sizeText: string,
                      id: string, createdAt: string): (r: Outcome<Messages.MessageResponse>)
    ensures !r.reply.Ok? ==> r.db == db
    ensures file.None? ==> r.reply == HttpError(BadRequest, NoFile)
    ensures file.Some? && !Storage.ValidateFileType(file.value) ==>
              r.reply == HttpError(BadRequest, UnsupportedType)
    ensures file.Some? && Storage.ValidateFileType(file.value)
              && !Storage.ValidateFileSize(file.value, Storage.MaxFileSize) ==>
              r.reply == HttpError(BadRequest, FileTooLarge)
    ensures file.Some? && Storage.ValidateFileType(file.value)
              && Storage.ValidateFileSize(file.value, Storage.MaxFileSize) && uploadError.Some? ==>
              r.reply == HttpError(InternalError, UploadFailedPrefix
                                   + ("File upload failed: Failed to upload file: " + uploadError.value))
    ensures r.reply.Ok? <==>
              && file.Some? && Storage.ValidateFileType(file.value)
              && Storage.ValidateFileSize(file.value, Storage.MaxFileSize) && uploadError.None?
              && ReadUsers !in db.faults && HasUser(db, body.senderId) && WriteMessages !in db.faults
    // the service's rejection is returned unawaited, so the catch does not convert it
    ensures file.Some? && Storage.ValidateFileType(file.value)
            && Storage.ValidateFileSize(file.value, Storage.MaxFileSize) && uploadError.None?
            && !r.reply.Ok? ==>
              r.reply.Rejected?
    ensures r.reply.Ok? ==>
              && Messages.DtoOf(r.reply.value) == UploadDto(body, file.value, publicUrl, sizeText)
              && r.db.messages == db.messages + [Messages.RowOf(r.reply.value)]
  {
    if file.None? then Outcome(db, HttpError(BadRequest, NoFile))
    else if !Storage.ValidateFileType(file.value) then Outcome(db, HttpError(BadRequest, UnsupportedType))
    else if !Storage.ValidateFileSize(file.value, Storage.MaxFileSize) then Outcome(db, HttpError(BadRequest, FileTooLarge))
    else match Storage.UploadFile(file.value, UploadFolder, uuid, uploadError, publicUrl)
      case Failure(e) => Outcome(db, HttpError(InternalError, UploadFailedPrefix + e))
      case Success(u) => CreateMessage(db, UploadDto(body, file.value, u.url, sizeText), id, createdAt)
  }

  /** A query number: the default when the parameter is absent or empty,
      its decimal value otherwise (so `"0"` gives 0, not the default). */
  function QueryNumber(q: Option<string>, default: nat): (n: nat)
    requires q.Some? ==> AllDigits(q.value)
    ensures q.None? || q.value == [] ==> n == default
  {
    if q.None? || q.value == [] then default else ParseDecimal(q.value)
  }

  /** A number written into the query comes back out of it. */
  lemma QueryNumberRoundTrip(n: nat, default: nat)
    ensures QueryNumber(Some(NatToString(n)), default) == n
  {
    ParseNatToString(n);
  }

  /** `getMessagesByRoom`: a page of at most `limit` messages of the room,
      50 from offset 0 unless the query says otherwise. */
  function GetMessagesByRoom(db: Db, roomId: string, limit: Option<string>, offset: Option<string>)
    : (r: Reply<seq<Messages.MessageResponse>>)
    requires limit.Some? ==> AllDigits(limit.value)
    requires offset.Some? ==> AllDigits(offset.value)
    ensures r.Rejected? <==> ReadMessages in db.faults
    ensures r.Ok? ==>
              var rows := MessagesPage(db, roomId, QueryNumber(limit, Messages.DefaultLimit),
                                       QueryNumber(offset, Messages.DefaultOffset));
              && |r.value| == |rows| <= QueryNumber(limit, Messages.DefaultLimit)
              && forall i :: 0 <= i < |rows| ==> Messages.RowOf(r.value[i]) == rows[i] && r.value[i].roomId == roomId
  {
    var lim := QueryNumber(limit, Messages.DefaultLimit);
    var off := QueryNumber(offset, Messages.DefaultOffset);
    Lift(Messages.GetMessagesByRoomId(db, roomId, lim, off))
  }

  /** Without query parameters a page holds at most the 50 newest messages. */
  lemma DefaultPageBound(db: Db, roomId: string)
    requires ReadMessages !in db.faults
    ensures var r := GetMessagesByRoom(db, roomId, None, None);
            r.Ok? && |r.value| <= 50
  {
    var r := GetMessagesByRoom(db, roomId, None, None);
    assert QueryNumber(None, Messages.DefaultLimit) == 50;
  }

  /** `getMessageById` as it reads: the call goes to a service method the
      message service does not define, so every request is rejected. */
  function GetMessageByIdAsWritten(db: Db, id: string): (r: Reply<Messages.MessageResponse>)
    ensures r.Rejected? && r.error == "this.messagesService.getMessageById is not a function"
  {
    Rejected("this.messagesService.getMessageById is not a function")
  }

  /** `getMessageById` as intended: the stored message with that id, or 404
      when the store finds none. */
  function GetMessageById(db: Db, id: string): (r: Reply<Messages.MessageResponse>)
    ensures r.Rejected? <==> ReadMessages in db.faults
    ensures ReadMessages !in db.faults ==>
              (r == HttpError(NotFound, MessageMissing) <==> |MessagesWithId(db, id)| != 1)
    ensures r.Ok? ==> r.value.id == id && Messages.RowOf(r.value) in db.messages
    // a message stored once under the id is served
    ensures ReadMessages !in db.faults && |MessagesWithId(db, id)| == 1 ==>
              r == Ok(Messages.ToResponse(MessagesWithId(db, id)[0]))
  {
    match Store.GetMessageById(db, id)
    case Failure(e) => Rejected(e)
    case Success(None) => HttpError(NotFound, MessageMissing)
    case Success(Some(row)) =>
      assert row in MessagesWithId(db, id);
      Ok(Messages.ToResponse(row))
  }

  /** A stored message is served by the intended handler and refused by
      the handler as written. */
  lemma {:induction false} StoredMessageRefusedAsWritten(db: Db, row: MessageRow)
    requires ReadMessages !in db.faults && db.messages == [row]
    ensures GetMessageById(db, row.id) == Ok(Messages.ToResponse(row))
    ensures GetMessageByIdAsWritten(db, row.id).Rejected?
  {
    var keep := (m: MessageRow) => m.id == row.id;
    FilterAppend([], row, keep);
    assert [] + [row] == db.messages;
    assert MessagesWithId(db, row.id) == [row];
  }
}
