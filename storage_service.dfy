/** The storage service's own rules: the file-type and size checks, the
    name and path an upload is stored under, the file-info lookup by base
    name, the failure contracts of upload and delete, and the required
    configuration variable. The bucket calls are parameters: what the
    bucket answered, or the message it failed with. */
module Storage {
  import opened Wrappers
  import opened Strings

  datatype UploadedFile = UploadedFile(originalName: string, mimeType: string, size: nat)

  datatype UploadResult = UploadResult(url: string, path: string, filename: string)

  /** An entry of a bucket listing: its name and optional metadata. */
  datatype FileObject = FileObject(
    name: string, size: Option<nat>, mimeType: Option<string>,
    updatedAt: Option<string>, createdAt: string)

  datatype FileInfo = FileInfo(size: nat, mimeType: string, lastModified: string)

  /** The alternatives of `/jpeg|jpg|png|gif|pdf|doc|docx|txt|zip|rar/`. */
  const AllowedTypes: seq<string> := ["jpeg", "jpg", "png", "gif", "pdf", "doc", "docx", "txt", "zip", "rar"]
  const MaxFileSize: nat := 10 * 1024 * 1024
  const DefaultMimeType := "application/octet-stream"

  /** Some alternative occurs somewhere in `s`. */
  ghost predicate AllowedOccursIn(s: string) {
    exists k, i :: 0 <= k < |AllowedTypes| && OccursAt(s, AllowedTypes[k], i)
  }

  /** Tries the alternatives of `alts` in turn, each searched anywhere. */
  function MatchesAny(s: string, alts: seq<string>): (b: bool)
    ensures b <==> exists k :: 0 <= k < |alts| && Contains(s, alts[k])
  {
    if alts == [] then false
    else
      var rest := MatchesAny(s, alts[1..]);
      assert forall k :: 1 <= k < |alts| ==> alts[k] == alts[1..][k - 1];
      Contains(s, alts[0]) || rest
  }

  /** The unanchored regular-expression test. */
  function AllowedTest(s: string): (b: bool)
    ensures b <==> AllowedOccursIn(s)
  {
    var b := MatchesAny(s, AllowedTypes);
    forall k | 0 <= k < |AllowedTypes| ensures Contains(s, AllowedTypes[k]) <==> exists i :: OccursAt(s, AllowedTypes[k], i) {
      ContainsIffOccurs(s, AllowedTypes[k]);
    }
    b
  }

  /** `validateFileType`: an alternative occurs in the lower-cased original
      name, and one occurs in the mimetype as given. */
  function ValidateFileType(file: UploadedFile): (ok: bool)
    ensures ok <==> AllowedOccursIn(ToLower(file.originalName)) && AllowedOccursIn(file.mimeType)
  {
    AllowedTest(ToLower(file.originalName)) && AllowedTest(file.mimeType)
  }

  /** The only `x` of `text/plain` is its third character. */
  lemma OnlyXOfTextPlain(j: int)
    requires 0 <= j < |"text/plain"|
    ensures "text/plain"[j] == 'x' ==> j == 2
  {
    assert j == 0 || j == 1 || j == 2 || j == 3 || j == 4 || j == 5 || j == 6 || j == 7 || j == 8 || j == 9;
  }

  /** `txt` does not occur in `text/plain`: its only `x` follows an `e`. */
  lemma TxtNotInTextPlain(i: int)
    ensures !OccursAt("text/plain", "txt", i)
  {
    var m := "text/plain";
    if 0 <= i && i + 3 <= |m| {
      OnlyXOfTextPlain(i + 1);
      assert m[i..i + 3][0] == m[i] && m[i..i + 3][1] == m[i + 1];
    }
  }

  /** The `k`-th alternative does not occur in the mimetype `text/plain`:
      each but `txt` holds a character that mimetype lacks. */
  lemma AlternativeNotInTextPlain(k: int, i: int)
    requires 0 <= k < |AllowedTypes|
    ensures !OccursAt("text/plain", AllowedTypes[k], i)
  {
    var m := "text/plain";
    var t := AllowedTypes[k];
    if t == "txt" {
      TxtNotInTextPlain(i);
    } else {
      var c := if k <= 1 then 'j' else if k == 2 || k == 3 then 'g' else if k == 8 then 'z' else if k == 9 then 'r' else 'd';
      var at := if k == 2 then 2 else if k == 4 then 1 else 0;
      assert t[at] == c && c !in m;
      MissingCharNotContained(m, t, at);
    }
  }

  /** No alternative occurs anywhere in the mimetype `text/plain`. */
  lemma TextPlainHasNoAlternative()
    ensures !AllowedOccursIn("text/plain")
  {
    forall k, i | 0 <= k < |AllowedTypes| ensures !OccursAt("text/plain", AllowedTypes[k], i) {
      AlternativeNotInTextPlain(k, i);
    }
  }

  /** A plain-text upload is refused whatever its name, although `txt` is
      among the alternatives. */
  lemma PlainTextRefused(name: string, size: nat)
    ensures !ValidateFileType(UploadedFile(name, "text/plain", size))
  {
    TextPlainHasNoAlternative();
  }

  /** In the mimetype `application/msword`, `r` occurs only second to last
      and `d` only last. */
  lemma LateCharsOfMsWord(j: int)
    requires 0 <= j < |"application/msword"|
    ensures "application/msword"[j] == 'r' ==> j == 16
    ensures "application/msword"[j] == 'd' ==> j == 17
  {
    assert j == 0 || j == 1 || j == 2 || j == 3 || j == 4 || j == 5 || j == 6 || j == 7 || j == 8
        || j == 9 || j == 10 || j == 11 || j == 12 || j == 13 || j == 14 || j == 15 || j == 16 || j == 17;
  }

  /** The `k`-th alternative does not occur in the mimetype
      `application/msword`: `doc`, `docx` and `rar` would start too late,
      and each other alternative holds a character that mimetype lacks. */
  lemma AlternativeNotInMsWord(k: int, i: int)
    requires 0 <= k < |AllowedTypes|
    ensures !OccursAt("application/msword", AllowedTypes[k], i)
  {
    var m := "application/msword";
    var t := AllowedTypes[k];
    if k == 5 || k == 6 || k == 9 {
      if 0 <= i && i + |t| <= |m| {
        assert m[i..i + |t|][0] == m[i];
        LateCharsOfMsWord(i);
      }
    } else {
      var c := if k <= 1 then 'j' else if k == 2 || k == 3 then 'g' else if k == 4 then 'f' else if k == 7 then 'x' else 'z';
      var at := if k == 2 || k == 4 then 2 else if k == 7 then 1 else 0;
      assert t[at] == c && c !in m;
      MissingCharNotContained(m, t, at);
    }
  }

  /** A Word upload (`application/msword`, which the bucket accepts) is
      refused whatever its name, although `doc` is among the alternatives. */
  lemma {:induction false} MsWordRefused(name: string, size: nat)
    ensures !ValidateFileType(UploadedFile(name, "application/msword", size))
  {
    forall k, i | 0 <= k < |AllowedTypes| ensures !OccursAt("application/msword", AllowedTypes[k], i) {
      AlternativeNotInMsWord(k, i);
    }
  }

  /** `validateFileSize`: the bound is inclusive; the service's default
      bound is 10 MiB. */
  function ValidateFileSize(file: UploadedFile, maxSize: nat): (ok: bool)
    ensures ok <==> file.size <= maxSize
  {
    file.size <= maxSize
  }

  /** The stored name: the generated id, a dot, and the original name's
      text after its last dot (the whole name if it has none). */
  function UploadName(uuid: string, originalName: string): string {
    uuid + ['.'] + AfterLast(originalName, '.')
  }

  /** The stored name keeps the original extension. */
  lemma {:induction false} UploadNameKeepsExtension(uuid: string, originalName: string)
    ensures AfterLast(UploadName(uuid, originalName), '.') == AfterLast(originalName, '.')
  {
    AfterLastOfJoin(uuid, '.', AfterLast(originalName, '.'));
  }

  /** `uploadFile`: the object goes to `folder/name`; the public URL comes
      from the bucket. A bucket error is wrapped twice, by the inner throw
      and by the outer catch. */
  function UploadFile(file: UploadedFile, folder: string, uuid: string,
                      uploadError: Option<string>, publicUrl: string): (r: Result<UploadResult>)
    ensures uploadError.Some? ==>
              r == Failure("File upload failed: Failed to upload file: " + uploadError.value)
    ensures uploadError.None? ==>
              && r.Success?
              && r.value.url == publicUrl
              && r.value.path == folder + ['/'] + r.value.filename
              && r.value.filename == UploadName(uuid, file.originalName)
              && ('/' !in uuid && '/' !in file.originalName ==> AfterLast(r.value.path, '/') == r.value.filename)
  {
    if uploadError.Some? then Failure("File upload failed: Failed to upload file: " + uploadError.value)
    else
      var filename := UploadName(uuid, file.originalName);
      var path := folder + ['/'] + filename;
      if '/' in uuid || '/' in file.originalName then Success(UploadResult(publicUrl, path, filename))
      else
        assert '/' !in AfterLast(file.originalName, '.');
        AfterLastOfJoin(folder, '/', filename);
        Success(UploadResult(publicUrl, path, filename))
  }

  /** `deleteFile`: true when the bucket removed the file, false on any
      failure; it never throws. */
  function DeleteFile(removeError: Option<string>): (ok: bool)
    ensures ok <==> removeError.None?
  {
    match removeError
    case None => true
    case Some(_) => false
  }

  /** `find`: the first listed file with the given name. */
  function FindByName(files: seq<FileObject>, name: string): (k: Option<nat>)
    ensures k.Some? ==> k.value < |files| && files[k.value].name == name
    ensures k.Some? ==> forall j :: 0 <= j < k.value ==> files[j].name != name
    ensures k.None? ==> forall j :: 0 <= j < |files| ==> files[j].name != name
  {
    if files == [] then None
    else if files[0].name == name then Some(0)
    else match FindByName(files[1..], name)
      case None => None
      case Some(j) => Some(j + 1)
  }

  /** The fields `getFileInfo` reads off a listing entry: its size (0 when
      missing or zero), its mimetype (the octet-stream default when missing
      or empty) and its update time (else its creation time). */
  function InfoOf(f: FileObject): (info: FileInfo)
    ensures info.size == (if f.size.Some? then f.size.value else 0)
    ensures f.mimeType.Some? && f.mimeType.value != "" ==> info.mimeType == f.mimeType.value
    ensures f.mimeType.None? || f.mimeType.value == "" ==> info.mimeType == DefaultMimeType
    ensures info.lastModified == if f.updatedAt.Some? && f.updatedAt.value != "" then f.updatedAt.value else f.createdAt
  {
    FileInfo(
      if f.size.Some? then f.size.value else 0,
      if f.mimeType.Some? && f.mimeType.value != "" then f.mimeType.value else DefaultMimeType,
      if f.updatedAt.Some? && f.updatedAt.value != "" then f.updatedAt.value else f.createdAt)
  }

  /** `getFileInfo`: the metadata of the first listing entry named like the
      path's last `/` segment. */
  function GetFileInfo(filePath: string, listing: Result<seq<FileObject>>): (r: Result<FileInfo>)
    ensures listing.Failure? ==>
              r == Failure("File info retrieval failed: Failed to get file info: " + listing.error)
    ensures listing.Success? && r.Failure? ==>
              r.error == "File info retrieval failed: File not found"
    ensures listing.Success? ==>
              (r.Failure? <==> forall j :: 0 <= j < |listing.value| ==> listing.value[j].name != AfterLast(filePath, '/'))
    ensures r.Success? ==>
              exists j :: 0 <= j < |listing.value| && listing.value[j].name == AfterLast(filePath, '/')
                          && r.value == InfoOf(listing.value[j])
                          && forall k :: 0 <= k < j ==> listing.value[k].name != AfterLast(filePath, '/')
  {
    match listing
    case Failure(e) => Failure("File info retrieval failed: Failed to get file info: " + e)
    case Success(files) =>
      match FindByName(files, AfterLast(filePath, '/'))
      case None => Failure("File info retrieval failed: File not found")
      case Some(k) => Success(InfoOf(files[k]))
  }

  /** `getRequiredEnv`: the variable's value, or an error naming the key
      when it is missing or empty. */
  function GetRequiredEnv(env: map<string, string>, key: string): (r: Result<string>)
    ensures r.Failure? <==> key !in env || env[key] == ""
    ensures r.Failure? ==> r.error == "Missing required environment variable: " + key
    ensures r.Success? ==> r.value == env[key] && r.value != ""
  {
    if key !in env || env[key] == "" then Failure("Missing required environment variable: " + key)
    else Success(env[key])
  }
}
