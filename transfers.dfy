/** Transfer sessions (`active_transfers` values): the record a request
    creates, the accept step, the validation chain of an upload and the
    completion check that follows each stored file. */
module Transfers {
  import opened Wrappers
  import opened Paths
  import opened Registry

  /** `os.urandom(16).hex()`, supplied by the caller as a fresh value. */
  type TransferId = string

  /** `datetime.now().isoformat()`, supplied by the caller. */
  type Timestamp = string

  /** The three status strings the server ever stores. */
  datatype Status = Pending | Accepted | ReadyForDownload

  /** One stored upload: where it was saved and the relative path it came with. */
  datatype FileRecord = FileRecord(path: Path, relativePath: string)

  datatype Transfer = Transfer(
    sender: Sid,
    recipientSid: Sid,
    filename: string,
    filesize: int,
    status: Status,
    isDirectory: bool,
    totalFiles: int,
    uploadedFiles: int,
    files: seq<FileRecord>,
    createdAt: Timestamp,
    acceptedAt: Option<Timestamp>,
    basePath: Option<Path>,
    uploadedAt: Option<Timestamp>)

  function OrElse<T>(o: Option<T>, default: T): (v: T)
    ensures o.Some? ==> v == o.value
    ensures o.None? ==> v == default
  {
    if o.Some? then o.value else default
  }

  function Min(a: int, b: int): int {
    if a < b then a else b
  }

  /** The payload of a `file_transfer_request` event; a key the client left out is None. */
  datatype RequestData = RequestData(
    target: Option<Sid>,
    filename: Option<string>,
    filesize: Option<int>,
    isDirectory: Option<bool>,
    totalFiles: Option<int>)

  /** The session record a transfer request stores. */
  function NewTransfer(sender: Sid, target: Sid, data: RequestData, now: Timestamp): (t: Transfer)
    ensures t.status == Pending && t.uploadedFiles == 0 && t.files == []
    ensures t.sender == sender && t.recipientSid == target
    ensures t.totalFiles == (if data.totalFiles.Some? then data.totalFiles.value else 1)
    ensures t.filename == (if data.filename.Some? then data.filename.value else "unknown")
    ensures t.filesize == (if data.filesize.Some? then data.filesize.value else 0)
    ensures t.isDirectory == (data.isDirectory == Some(true))
    ensures t.createdAt == now && t.acceptedAt.None? && t.basePath.None? && t.uploadedAt.None?
  {
    Transfer(sender, target, OrElse(data.filename, "unknown"), OrElse(data.filesize, 0), Pending,
             OrElse(data.isDirectory, false), OrElse(data.totalFiles, 1), 0, [], now, None, None, None)
  }

  /** What every stored session satisfies; `home` is its upload folder. One
      file record per counted upload, the base path is the session's own
      folder, and a session ready for download has its base path, at least
      one file and as many uploads as it declared. */
  predicate WellFormed(t: Transfer, home: Path) {
    && |t.files| == t.uploadedFiles
    && (t.basePath.Some? ==> t.basePath.value == home)
    && (t.status == ReadyForDownload ==> t.basePath.Some? && t.files != [] && t.uploadedFiles >= t.totalFiles)
  }

  /** The accept step: the status becomes `accepted` whatever it was before. */
  function Accept(t: Transfer, now: Timestamp): (a: Transfer)
    ensures a.status == Accepted && a.acceptedAt == Some(now)
    ensures a.sender == t.sender && a.recipientSid == t.recipientSid
    ensures a.files == t.files && a.uploadedFiles == t.uploadedFiles && a.totalFiles == t.totalFiles
    ensures a.basePath == t.basePath && a.isDirectory == t.isDirectory && a.filename == t.filename
    ensures forall home :: WellFormed(t, home) ==> WellFormed(a, home)
  {
    t.(status := Accepted, acceptedAt := Some(now))
  }

  /** A session's upload folder, `UPLOAD_FOLDER / transfer_id`. */
  function TransferPath(uploadFolder: Path, id: TransferId): (home: Path)
    ensures !IsAbsolute(id) ==> IsUnder(home, uploadFolder) && home == uploadFolder + "/" + id
    ensures IsAbsolute(id) ==> home == id
  {
    JoinPath(uploadFolder, id)
  }

  /** Where an upload is saved: the raw relative path for a directory upload,
      the sanitised file name (`secure_filename`) otherwise. The relative path
      is not sanitised, so an absolute one, or one that steps out with `..`,
      escapes the session folder; `IsUnder` below is containment of the text. */
  function StoredPath(home: Path, isDirectory: bool, relativePath: string, safeName: string): (p: Path)
    ensures isDirectory && !IsAbsolute(relativePath) ==> IsUnder(p, home) && p[|home| + 1..] == relativePath
    ensures isDirectory && IsAbsolute(relativePath) ==> p == relativePath
    ensures !isDirectory && !IsAbsolute(safeName) ==> IsUnder(p, home) && p[|home| + 1..] == safeName
  {
    JoinPath(home, if isDirectory then relativePath else safeName)
  }

  /** A directory upload whose relative path is neither absolute nor steps
      out with `..` is stored at a place inside the session folder. */
  lemma StoredPathStaysInside(home: Path, relativePath: string, safeName: string)
    requires !IsAbsolute(relativePath) && NoParentStep(Split(relativePath))
    ensures Location(StoredPath(home, true, relativePath, safeName)) == Location(home) + Resolve(Split(relativePath))
  {
    JoinLocation(home, relativePath);
  }

  /** A directory upload whose relative path is `../name` is written beside
      the session folder, outside it. */
  lemma ParentStepEscapesSession(home: Path, name: string, safeName: string)
    requires '/' !in name && name != "" && name != "." && name != ".."
    requires Location(home) != [] && Location(home)[|Location(home)| - 1] != ".."
    ensures !LiesInside(StoredPath(home, true, "../" + name, safeName), home)
  {
    JoinParentEscapes(home, name);
  }

  /** A single-file upload is saved under its sanitised name directly in the
      session folder, so the basename of the stored path is that name, the
      name the file is later sent back under. */
  lemma SingleFileKeepsName(home: Path, relativePath: string, safeName: string)
    requires '/' !in safeName
    ensures Basename(StoredPath(home, false, relativePath, safeName)) == safeName
  {
    BasenameOfJoin(home, safeName);
  }

  /** Counting one stored file, then the completion check: once the count
      reaches the declared total the session becomes ready for download. */
  function RecordUpload(t: Transfer, rec: FileRecord, home: Path, now: Timestamp): (u: Transfer)
    ensures u.uploadedFiles == t.uploadedFiles + 1 && u.files == t.files + [rec]
    ensures u.uploadedFiles >= t.totalFiles ==>
      u.status == ReadyForDownload && u.basePath == Some(home) && u.uploadedAt == Some(now)
    ensures u.uploadedFiles < t.totalFiles ==>
      u.status == t.status && u.basePath == t.basePath && u.uploadedAt == t.uploadedAt
    ensures u.sender == t.sender && u.recipientSid == t.recipientSid && u.totalFiles == t.totalFiles
    ensures u.isDirectory == t.isDirectory && u.filename == t.filename && u.acceptedAt == t.acceptedAt
    ensures WellFormed(t, home) ==> WellFormed(u, home)
  {
    var counted := t.(uploadedFiles := t.uploadedFiles + 1, files := t.files + [rec]);
    if counted.uploadedFiles >= counted.totalFiles then
      counted.(status := ReadyForDownload, basePath := Some(home), uploadedAt := Some(now))
    else counted
  }

  /** The form of an upload request. `hasFile` is whether the request has a
      `file` part; `filename` is that part's file name. */
  datatype UploadRequest = UploadRequest(
    hasFile: bool,
    filename: string,
    transferId: Option<string>,
    relativePath: Option<string>,
    isDirectory: Option<string>)

  function RelativePath(req: UploadRequest): string {
    OrElse(req.relativePath, "")
  }

  predicate IsDirectoryUpload(req: UploadRequest) {
    req.isDirectory == Some("true")
  }

  /** A form value Python treats as false: absent or empty. */
  predicate Missing(o: Option<string>) {
    o.None? || o.value == ""
  }

  datatype UploadError = NoFilePart | NoTransferId | InvalidTransferId | InvalidStatus(status: Status) | NoSelectedFile

  /** The validation chain of an upload, in the order the server applies it.
      Each error is reported only when every earlier check passed. */
  function CheckUpload(transfers: map<TransferId, Transfer>, req: UploadRequest): (r: Result<TransferId, UploadError>)
    ensures r.Success? <==>
      req.hasFile && !Missing(req.transferId) && req.transferId.value in transfers &&
      transfers[req.transferId.value].status == Accepted && req.filename != ""
    ensures r.Success? ==> r.value == req.transferId.value
    ensures r == Failure(NoFilePart) <==> !req.hasFile
    ensures r == Failure(NoTransferId) <==> req.hasFile && Missing(req.transferId)
    ensures r == Failure(InvalidTransferId) <==>
      req.hasFile && !Missing(req.transferId) && req.transferId.value !in transfers
    ensures (r.Failure? && r.error.InvalidStatus?) <==>
      req.hasFile && !Missing(req.transferId) && req.transferId.value in transfers &&
      transfers[req.transferId.value].status != Accepted
    ensures r.Failure? && r.error.InvalidStatus? ==> r.error.status == transfers[req.transferId.value].status
    ensures r == Failure(NoSelectedFile) <==>
      req.hasFile && !Missing(req.transferId) && req.transferId.value in transfers &&
      transfers[req.transferId.value].status == Accepted && req.filename == ""
  {
    if !req.hasFile then Failure(NoFilePart)
    else if Missing(req.transferId) then Failure(NoTransferId)
    else if req.transferId.value !in transfers then Failure(InvalidTransferId)
    else if transfers[req.transferId.value].status != Accepted then
      Failure(InvalidStatus(transfers[req.transferId.value].status))
    else if req.filename == "" then Failure(NoSelectedFile)
    else Success(req.transferId.value)
  }

  /** A run of uploads against one session: each is stored only while the
      session is `accepted`; once it is ready the rest are refused. */
  function UploadRun(t: Transfer, recs: seq<FileRecord>, home: Path, now: Timestamp): Transfer
    decreases |recs|
  {
    if recs == [] || t.status != Accepted then t
    else UploadRun(RecordUpload(t, recs[0], home, now), recs[1..], home, now)
  }

  /** From an accepted session still short of its total, a run of uploads
      stores exactly as many files as are missing and no more, and the session
      becomes ready exactly when the run is long enough. */
  lemma {:induction false} ReadyExactlyAtTotal(t: Transfer, recs: seq<FileRecord>, home: Path, now: Timestamp)
    requires t.status == Accepted && t.uploadedFiles < t.totalFiles
    ensures var n := Min(|recs|, t.totalFiles - t.uploadedFiles);
            var u := UploadRun(t, recs, home, now);
            && u.uploadedFiles == t.uploadedFiles + n
            && u.files == t.files + recs[..n]
            && (u.status == ReadyForDownload <==> |recs| >= t.totalFiles - t.uploadedFiles)
            && (u.status != ReadyForDownload ==> u.status == Accepted)
    decreases |recs|
  {
    if recs != [] {
      var t1 := RecordUpload(t, recs[0], home, now);
      var n := Min(|recs|, t.totalFiles - t.uploadedFiles);
      if t1.uploadedFiles < t1.totalFiles {
        ReadyExactlyAtTotal(t1, recs[1..], home, now);
        assert recs[..n] == [recs[0]] + recs[1..][..n - 1];
      } else {
        assert recs[..n] == [recs[0]];
      }
    }
  }

  /** Accept does not look at the prior status, so accepting a session that is
      already ready reopens it, and one more upload pushes the count past the
      declared total. */
  lemma ReacceptExceedsTotal(t: Transfer, rec: FileRecord, home: Path, now: Timestamp, later: Timestamp)
    requires WellFormed(t, home) && t.status == ReadyForDownload
    ensures var u := RecordUpload(Accept(t, now), rec, home, later);
            u.status == ReadyForDownload && u.uploadedFiles > u.totalFiles
  {
  }
}
