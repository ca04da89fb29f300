/** The transfer coordinator: the device registry, the session table, the
    server's view of the file system and the events it sends, updated by the
    Socket.IO handlers (connect, disconnect, request, accept, reject,
    complete) and the two HTTP routes (upload, download). */
module Coordinator {
  import opened Wrappers
  import opened Paths
  import opened Network
  import opened Registry
  import opened Transfers
  import opened Delivery

  /** Who an event goes to: one connection's room, or every client. */
  datatype Target = Room(sid: Sid) | Broadcast

  /** The Socket.IO events the server emits, with their payloads. */
  datatype Event =
    | DeviceList(devices: map<Sid, Device>)
    | FileTransferError(error: string)
    | FileTransferRequest(transferId: TransferId, from: Sid, fromName: string, filename: string, filesize: int, isDirectory: bool)
    | FileTransferRequestSent(transferId: TransferId, target: Sid)
    | FileTransferAccepted(transferId: TransferId, uploadUrl: string, recipientName: string)
    | FileTransferRejected(transferId: TransferId)
    | FileReadyForDownload(transferId: TransferId, filename: string, downloadUrl: string, isDirectory: bool)

  datatype Notification = Notification(to: Target, event: Event)

  /** The library functions the server relies on without this model seeing
      inside them: werkzeug's `secure_filename`, `os.path.normpath` and
      `os.path.abspath`. */
  datatype PathLib = PathLib(secureFilename: string -> string, normPath: string -> string, absPath: string -> string)

  const TargetNotFound := "Target device not found"
  const RequestFailed := "Internal server error during transfer request"
  const TransferNotFound := "Transfer not found"
  const SenderDisconnected := "Sender disconnected"
  const AcceptFailed := "Internal server error during transfer accept"
  const UploadUrl := "/upload"

  function DownloadUrl(tid: TransferId): string {
    "/download/" + tid
  }

  /** What a successful download hands over. */
  datatype Delivered =
    | SendFile(path: Path, downloadName: string)
    | SendZip(downloadName: string, entries: seq<ZipEntry>)
    | CopiedTo(targetDir: Path, filesCopied: nat)

  /** The failures of a download. `InternalError` is the answer when the
      session lacks a field the route reads (a 500); `CopyFailed` is the
      desktop copy that copied nothing. */
  datatype DownloadError =
    | MissingTransferId
    | UnknownTransfer
    | NotReady(status: Status)
    | InternalError
    | FilesNotFound
    | CopyFailed(targetDir: Path)

  /** The checks a download makes before it looks at the client. */
  function CheckDownload(transfers: map<TransferId, Transfer>, fs: set<Path>, tid: TransferId): (r: Result<Transfer, DownloadError>)
    ensures r == Failure(MissingTransferId) <==> tid == ""
    ensures r == Failure(UnknownTransfer) <==> tid != "" && tid !in transfers
    ensures (r.Failure? && r.error.NotReady?) <==>
      tid != "" && tid in transfers && transfers[tid].status != ReadyForDownload
    ensures r.Failure? && r.error.NotReady? ==> r.error.status == transfers[tid].status
    ensures r == Failure(InternalError) <==>
      tid != "" && tid in transfers && transfers[tid].status == ReadyForDownload && transfers[tid].basePath.None?
    ensures r == Failure(FilesNotFound) <==>
      tid != "" && tid in transfers && transfers[tid].status == ReadyForDownload &&
      transfers[tid].basePath.Some? && transfers[tid].basePath.value !in fs
    ensures r.Success? <==>
      tid != "" && tid in transfers && transfers[tid].status == ReadyForDownload &&
      transfers[tid].basePath.Some? && transfers[tid].basePath.value in fs
    ensures r.Success? ==> r.value == transfers[tid]
  {
    if tid == "" then Failure(MissingTransferId)
    else if tid !in transfers then Failure(UnknownTransfer)
    else if transfers[tid].status != ReadyForDownload then Failure(NotReady(transfers[tid].status))
    else if transfers[tid].basePath.None? then Failure(InternalError)
    else if transfers[tid].basePath.value !in fs then Failure(FilesNotFound)
    else Success(transfers[tid])
  }

  /** A stored session never reaches the 500 of a missing base path. */
  lemma ReadySessionHasBasePath(transfers: map<TransferId, Transfer>, uploadFolder: Path, fs: set<Path>, tid: TransferId)
    requires forall id :: id in transfers ==> WellFormed(transfers[id], TransferPath(uploadFolder, id))
    ensures CheckDownload(transfers, fs, tid) != Failure(InternalError)
    ensures CheckDownload(transfers, fs, tid).Success? ==>
      var t := CheckDownload(transfers, fs, tid).value;
      t.files != [] && t.basePath == Some(TransferPath(uploadFolder, tid))
  {
  }

  /** The session table and file system after completing session `tid`
      whose upload folder is `home`: the folder goes with everything in it,
      when it exists, and so does the session. */
  function Completed(transfers: map<TransferId, Transfer>, fs: set<Path>, home: Path, tid: TransferId)
    : (r: (map<TransferId, Transfer>, set<Path>))
    ensures tid !in r.0 && forall id :: id in r.0 <==> id in transfers && id != tid
    ensures forall id :: id in r.0 ==> r.0[id] == transfers[id]
    ensures r.1 <= fs
    ensures tid in transfers && home in fs ==> forall q :: q in r.1 ==> q != home && !IsUnder(q, home)
    ensures forall q :: q in fs && q != home && !IsUnder(q, home) ==> q in r.1
    ensures home !in fs ==> r.1 == fs
    ensures tid !in transfers ==> r == (transfers, fs)
  {
    if tid in transfers then (transfers - {tid}, if home in fs then RemoveTree(fs, home) else fs)
    else (transfers, fs)
  }

  /** Completing the same session twice is the same as completing it once. */
  lemma CompleteIdempotent(transfers: map<TransferId, Transfer>, fs: set<Path>, home: Path, tid: TransferId)
    ensures var once := Completed(transfers, fs, home, tid);
      Completed(once.0, once.1, home, tid) == once
  {
  }

  /** The folder a desktop copy goes below: the requested one made absolute,
      or the user's Downloads folder. */
  function TargetBase(downloadDir: string, defaultDownloads: Path, absPath: string -> string): (b: Path)
    ensures downloadDir != "" ==> b == absPath(downloadDir)
    ensures downloadDir == "" ==> b == defaultDownloads
  {
    if downloadDir != "" then absPath(downloadDir) else defaultDownloads
  }

  /** The destination folder a download result names, if any. */
  function ResultDir(r: Result<Delivered, DownloadError>): Path {
    if r.Success? && r.value.CopiedTo? then r.value.targetDir
    else if r.Failure? && r.error.CopyFailed? then r.error.targetDir
    else ""
  }

  /** The end of a desktop copy into `dir`: success with the number of
      copies, or failure with the folder removed when it exists and is
      empty. */
  function FinishCopy(run: CopyResult, dir: Path): (o: (Result<Delivered, DownloadError>, set<Path>))
    ensures run.copied != [] ==> o.0 == Success(CopiedTo(dir, |run.copied|)) && o.1 == run.fs
    ensures run.copied == [] ==> o.0 == Failure(CopyFailed(dir))
    ensures run.copied == [] && dir in run.fs && !HasEntries(run.fs, dir) ==> o.1 == run.fs - {dir}
    ensures run.copied == [] && (dir !in run.fs || HasEntries(run.fs, dir)) ==> o.1 == run.fs
  {
    if run.copied != [] then (Success(CopiedTo(dir, |run.copied|)), run.fs)
    else if dir in run.fs && !HasEntries(run.fs, dir) then (Failure(CopyFailed(dir)), run.fs - {dir})
    else (Failure(CopyFailed(dir)), run.fs)
  }

  /** The first loop of `handle_connect`: the connections, other than `id`
      itself, registered from address `ip`. */
  method CollectEvictees(m: map<Sid, Device>, id: Sid, ip: Option<string>) returns (e: set<Sid>)
    ensures e == Evictees(m, id, ip)
  {
    e := {};
    var pending := m.Keys;
    while pending != {}
      invariant pending <= m.Keys
      invariant forall s :: s in e <==> s in m && s !in pending && s != id && m[s].ip == ip
      decreases pending
    {
      var s :| s in pending;
      if m[s].ip == ip && s != id {
        e := e + {s};
      }
      pending := pending - {s};
    }
  }

  /** The second loop of `handle_connect`: each collected connection is
      deleted from the registry. */
  method RemoveAll(m: map<Sid, Device>, gone: set<Sid>) returns (r: map<Sid, Device>)
    ensures r == m - gone
  {
    r := m;
    var rest := gone;
    while rest != {}
      invariant rest <= gone
      invariant r == m - (gone - rest)
      decreases rest
    {
      var s :| s in rest;
      r := r - {s};
      rest := rest - {s};
    }
  }

  /** `r` and `fs` are the outcome of the desktop branch from `fs0`: the
      destination folder `ResultDir(r)` is the first free name derived from
      the session's folder name below the created download folder, and the
      copy into it ends as `FinishCopy` says. */
  ghost predicate CopiedToFolder(fs0: set<Path>, t: Transfer, targetBase: Path, normPath: string -> string,
                                 r: Result<Delivered, DownloadError>, fs: set<Path>)
  {
    var fs1 := Create(fs0, targetBase);
    var dir := ResultDir(r);
    && FirstFreeCandidate(fs1, JoinPath(targetBase, Basename(t.filename)), dir)
    && (r, fs) == FinishCopy(CopyRun(Create(fs1, dir), StoredPaths(t.files), CopyTargets(dir, normPath, t.files)), dir)
  }

  /** The first half of the desktop branch: the download folder is created
      and, below it, the first free name derived from the session's folder
      name. */
  method MakeTargetFolder(fs0: set<Path>, t: Transfer, targetBase: Path) returns (dir: Path, fs: set<Path>)
    ensures FirstFreeCandidate(Create(fs0, targetBase), JoinPath(targetBase, Basename(t.filename)), dir)
    ensures fs == Create(Create(fs0, targetBase), dir) && dir in fs
  {
    fs := Create(fs0, targetBase);
    var base := JoinPath(targetBase, Basename(t.filename));
    var n;
    dir, n := UniqueFolder(fs, base);
    assert FirstFreeCandidate(fs, base, dir);
    fs := Create(fs, dir);
  }

  /** The desktop branch of a download: the destination folder is made,
      the stored files are copied in, and the outcome is settled by
      `FinishCopy`. */
  method CopyToFolder(fs0: set<Path>, t: Transfer, targetBase: Path, normPath: string -> string)
    returns (r: Result<Delivered, DownloadError>, fs: set<Path>)
    ensures CopiedToFolder(fs0, t, targetBase, normPath, r, fs)
  {
    var dir;
    dir, fs := MakeTargetFolder(fs0, t, targetBase);
    ghost var run := CopyRun(fs, StoredPaths(t.files), CopyTargets(dir, normPath, t.files));
    var copied;
    fs, copied := CopyTree(fs, t.files, dir, normPath);
    if copied != [] {
      r := Success(CopiedTo(dir, |copied|));
      assert (r, fs) == FinishCopy(run, dir);
    } else {
      r := Failure(CopyFailed(dir));
      if dir in fs && !HasEntries(fs, dir) {
        fs := fs - {dir};
      }
      assert (r, fs) == FinishCopy(run, dir);
    }
    assert ResultDir(r) == dir;
  }

  class Server {
    const uploadFolder: Path
    const lib: PathLib
    var devices: map<Sid, Device>
    var transfers: map<TransferId, Transfer>
    var fs: set<Path>
    var outbox: seq<Notification>

    /** The upload folder of a session. */
    function Home(tid: TransferId): Path {
      TransferPath(uploadFolder, tid)
    }

    /** The registry is keyed by connection id with one device per address,
        and every session is well formed for its own upload folder. */
    ghost predicate Valid()
      reads this
    {
      && KeyedById(devices)
      && UniqueIps(devices)
      && forall tid :: tid in transfers ==> WellFormed(transfers[tid], Home(tid))
    }

    /** Start-up: no devices, no sessions, and the upload folder `mkdtemp`
        makes: a name that did not exist, now created and empty. */
    constructor (uploadFolder: Path, lib: PathLib, initialFs: set<Path>)
      requires uploadFolder !in initialFs && !HasEntries(initialFs, uploadFolder)
      ensures Valid()
      ensures uploadFolder in fs && !HasEntries(fs, uploadFolder)
      ensures this.uploadFolder == uploadFolder && this.lib == lib
      ensures devices == map[] && transfers == map[] && outbox == []
      ensures fs == Create(initialFs, uploadFolder)
    {
      this.uploadFolder := uploadFolder;
      this.lib := lib;
      devices := map[];
      transfers := map[];
      fs := Create(initialFs, uploadFolder);
      outbox := [];
    }

    /** `handle_connect`: every other device from the same address is
        dropped, the connection is registered, and the new list goes to
        every client. */
    method Connect(id: Sid, requestedName: Option<string>, env: RequestEnv, interfaceAddrs: seq<string>)
      requires Valid()
      modifies this
      ensures Valid()
      ensures devices == Admit(old(devices), id, NameFor(id, requestedName), DeviceIp(env, interfaceAddrs))
      ensures transfers == old(transfers) && fs == old(fs)
      ensures outbox == old(outbox) + [Notification(Broadcast, DeviceList(devices))]
    {
      var name := NameFor(id, requestedName);
      var ip := DeviceIp(env, interfaceAddrs);
      var disconnected := CollectEvictees(devices, id, ip);
      var remaining := RemoveAll(devices, disconnected);
      devices := remaining[id := Device(id, name, ip)];
      outbox := outbox + [Notification(Broadcast, DeviceList(devices))];
    }

    /** `handle_disconnect`: a registered connection is dropped and the new
        list goes to every client; an unknown one changes nothing. */
    method Disconnect(id: Sid)
      requires Valid()
      modifies this
      ensures Valid()
      ensures devices == old(devices) - {id}
      ensures transfers == old(transfers) && fs == old(fs)
      ensures id in old(devices) ==> outbox == old(outbox) + [Notification(Broadcast, DeviceList(devices))]
      ensures id !in old(devices) ==> outbox == old(outbox)
    {
      if id in devices {
        devices := devices - {id};
        outbox := outbox + [Notification(Broadcast, DeviceList(devices))];
      }
    }

    /** `handle_file_transfer_request` from connection `sid`; `freshId` is
        the random session id. A request without a target is ignored, one
        for an unknown target is answered with an error. Otherwise the
        session is stored, and then the recipient and the sender are told;
        when the sender itself is not registered, looking up its name fails
        after the session was stored, and the sender gets the internal
        error instead. */
    method RequestTransfer(sid: Sid, data: RequestData, freshId: TransferId, now: Timestamp)
      requires Valid()
      modifies this
      ensures Valid()
      ensures devices == old(devices) && fs == old(fs)
      ensures data.target.None? ==> transfers == old(transfers) && outbox == old(outbox)
      ensures data.target.Some? && data.target.value !in devices ==>
        transfers == old(transfers) &&
        outbox == old(outbox) + [Notification(Room(sid), FileTransferError(TargetNotFound))]
      ensures data.target.Some? && data.target.value in devices ==>
        transfers == old(transfers)[freshId := NewTransfer(sid, data.target.value, data, now)]
      ensures data.target.Some? && data.target.value in devices && sid !in devices ==>
        outbox == old(outbox) + [Notification(Room(sid), FileTransferError(RequestFailed))]
      ensures data.target.Some? && data.target.value in devices && sid in devices ==>
        var t := transfers[freshId];
        outbox == old(outbox) + [
          Notification(Room(data.target.value),
            FileTransferRequest(freshId, sid, devices[sid].name, t.filename, t.filesize, t.isDirectory)),
          Notification(Room(sid), FileTransferRequestSent(freshId, data.target.value))]
    {
      if data.target.None? {
        return;
      }
      var target := data.target.value;
      if target !in devices {
        outbox := outbox + [Notification(Room(sid), FileTransferError(TargetNotFound))];
        return;
      }
      var t := NewTransfer(sid, target, data, now);
      transfers := transfers[freshId := t];
      if sid !in devices {
        outbox := outbox + [Notification(Room(sid), FileTransferError(RequestFailed))];
        return;
      }
      outbox := outbox + [
        Notification(Room(target), FileTransferRequest(freshId, sid, devices[sid].name, t.filename, t.filesize, t.isDirectory)),
        Notification(Room(sid), FileTransferRequestSent(freshId, target))];
    }

    /** `handle_file_transfer_accept` from connection `sid`. Without an id
        nothing happens; an unknown session or a departed sender is
        reported to the acceptor. Otherwise the session is accepted and the
        sender is sent the upload URL; when the acceptor is not registered,
        looking up its name fails after the session was accepted, and the
        acceptor gets the internal error instead. */
    method AcceptTransfer(sid: Sid, tid: Option<TransferId>, now: Timestamp)
      requires Valid()
      modifies this
      ensures Valid()
      ensures devices == old(devices) && fs == old(fs)
      ensures Missing(tid) ==> transfers == old(transfers) && outbox == old(outbox)
      ensures !Missing(tid) && tid.value !in old(transfers) ==>
        transfers == old(transfers) &&
        outbox == old(outbox) + [Notification(Room(sid), FileTransferError(TransferNotFound))]
      ensures !Missing(tid) && tid.value in old(transfers) && old(transfers)[tid.value].sender !in devices ==>
        transfers == old(transfers) &&
        outbox == old(outbox) + [Notification(Room(sid), FileTransferError(SenderDisconnected))]
      ensures !Missing(tid) && tid.value in old(transfers) && old(transfers)[tid.value].sender in devices ==>
        transfers == old(transfers)[tid.value := Accept(old(transfers)[tid.value], now)]
      ensures !Missing(tid) && tid.value in old(transfers) && old(transfers)[tid.value].sender in devices && sid !in devices ==>
        outbox == old(outbox) + [Notification(Room(sid), FileTransferError(AcceptFailed))]
      ensures !Missing(tid) && tid.value in old(transfers) && old(transfers)[tid.value].sender in devices && sid in devices ==>
        outbox == old(outbox) + [Notification(Room(old(transfers)[tid.value].sender),
                                              FileTransferAccepted(tid.value, UploadUrl, devices[sid].name))]
    {
      if Missing(tid) {
        return;
      }
      var id := tid.value;
      if id !in transfers {
        outbox := outbox + [Notification(Room(sid), FileTransferError(TransferNotFound))];
        return;
      }
      var t := transfers[id];
      if t.sender !in devices {
        outbox := outbox + [Notification(Room(sid), FileTransferError(SenderDisconnected))];
        return;
      }
      transfers := transfers[id := Accept(t, now)];
      if sid !in devices {
        outbox := outbox + [Notification(Room(sid), FileTransferError(AcceptFailed))];
        return;
      }
      outbox := outbox + [Notification(Room(t.sender), FileTransferAccepted(id, UploadUrl, devices[sid].name))];
    }

    /** `handle_file_transfer_reject` from connection `sid`. A known session
        is deleted, and its sender told when still connected; when the
        sender is connected but the rejecter is not registered, looking up
        the rejecter's name fails first and nothing changes. */
    method RejectTransfer(sid: Sid, tid: Option<TransferId>)
      requires Valid()
      modifies this
      ensures Valid()
      ensures devices == old(devices) && fs == old(fs)
      ensures Missing(tid) || tid.value !in old(transfers) ==>
        transfers == old(transfers) && outbox == old(outbox)
      ensures !Missing(tid) && tid.value in old(transfers) && old(transfers)[tid.value].sender !in devices ==>
        transfers == old(transfers) - {tid.value} && outbox == old(outbox)
      ensures !Missing(tid) && tid.value in old(transfers) && old(transfers)[tid.value].sender in devices && sid !in devices ==>
        transfers == old(transfers) && outbox == old(outbox)
      ensures !Missing(tid) && tid.value in old(transfers) && old(transfers)[tid.value].sender in devices && sid in devices ==>
        transfers == old(transfers) - {tid.value} &&
        outbox == old(outbox) + [Notification(Room(old(transfers)[tid.value].sender), FileTransferRejected(tid.value))]
    {
      if Missing(tid) || tid.value !in transfers {
        return;
      }
      var id := tid.value;
      var t := transfers[id];
      if t.sender in devices {
        if sid !in devices {
          return;
        }
        outbox := outbox + [Notification(Room(t.sender), FileTransferRejected(id))];
      }
      transfers := transfers - {id};
    }

    /** `handle_file_transfer_complete`: a known session's upload folder is
        removed with everything in it, and the session is deleted. */
    method CompleteTransfer(tid: Option<TransferId>)
      requires Valid()
      modifies this
      ensures Valid()
      ensures devices == old(devices) && outbox == old(outbox)
      ensures tid.None? || tid.value !in old(transfers) ==> transfers == old(transfers) && fs == old(fs)
      ensures tid.Some? ==> (transfers, fs) == Completed(old(transfers), old(fs), Home(tid.value), tid.value)
    {
      if tid.None? || tid.value !in transfers {
        return;
      }
      var home := Home(tid.value);
      if home in fs {
        fs := RemoveTree(fs, home);
      }
      transfers := transfers - {tid.value};
    }

    /** The `/upload` route. A request that fails a check changes nothing.
        Otherwise the file is saved below the session's folder (by its
        relative path for a directory upload, by its sanitised name
        otherwise), counted and recorded, and when the count reaches the
        declared total the recipient is told the files are ready. */
    method Upload(req: UploadRequest, now: Timestamp) returns (r: Result<TransferId, UploadError>)
      requires Valid()
      modifies this
      ensures Valid()
      ensures devices == old(devices)
      ensures r == CheckUpload(old(transfers), req)
      ensures r.Failure? ==> transfers == old(transfers) && fs == old(fs) && outbox == old(outbox)
      ensures r.Success? ==> Saved(old(transfers), old(fs), old(outbox), r.value, req, now)
    {
      r := CheckUpload(transfers, req);
      if r.Success? {
        Save(r.value, req, now);
      }
    }

    /** The file system, the session table and the outbox after the upload
        `req` of session `tid` was accepted by the checks. */
    ghost predicate Saved(transfers0: map<TransferId, Transfer>, fs0: set<Path>, outbox0: seq<Notification>,
                          tid: TransferId, req: UploadRequest, now: Timestamp)
      requires tid in transfers0
      reads this
    {
      var t := transfers0[tid];
      var path := StoredPath(Home(tid), IsDirectoryUpload(req), RelativePath(req), lib.secureFilename(req.filename));
      && fs == Create(fs0, path)
      && transfers == transfers0[tid := RecordUpload(t, FileRecord(path, RelativePath(req)), Home(tid), now)]
      && (t.uploadedFiles + 1 < t.totalFiles ==> outbox == outbox0)
      && (t.uploadedFiles + 1 >= t.totalFiles ==>
            outbox == outbox0 + [Notification(Room(t.recipientSid),
              FileReadyForDownload(tid, if IsDirectoryUpload(req) then Basename(RelativePath(req)) else req.filename,
                                   DownloadUrl(tid), IsDirectoryUpload(req)))])
    }

    /** The second half of the `/upload` route, once every check passed. */
    method Save(tid: TransferId, req: UploadRequest, now: Timestamp)
      requires Valid() && tid in transfers
      modifies this
      ensures Valid()
      ensures devices == old(devices)
      ensures tid in old(transfers) && Saved(old(transfers), old(fs), old(outbox), tid, req, now)
    {
      var t := transfers[tid];
      var home := Home(tid);
      var isDirectory := IsDirectoryUpload(req);
      var relativePath := RelativePath(req);
      var path := StoredPath(home, isDirectory, relativePath, lib.secureFilename(req.filename));
      fs := Create(fs, path);
      var u := RecordUpload(t, FileRecord(path, relativePath), home, now);
      transfers := transfers[tid := u];
      if u.uploadedFiles >= u.totalFiles {
        var name := if isDirectory then Basename(relativePath) else req.filename;
        outbox := outbox + [Notification(Room(t.recipientSid), FileReadyForDownload(tid, name, DownloadUrl(tid), isDirectory))];
      }
    }

    /** The `/download/<transfer_id>` route. After the checks, a single file
        is sent as it is; a folder goes to a mobile client as a zip of the
        stored files that still exist, and to any other client as a copy
        into a new folder below the download folder, named after the
        session's folder with `_1`, `_2`, … appended until the name is
        free. A copy that copies nothing fails, removing the new folder
        when it is still empty. Only the desktop copy changes anything. */
    method Download(tid: TransferId, userAgent: string, downloadDir: string, defaultDownloads: Path)
      returns (r: Result<Delivered, DownloadError>)
      requires Valid()
      modifies this
      ensures Valid()
      ensures devices == old(devices) && transfers == old(transfers) && outbox == old(outbox)
      ensures CheckDownload(transfers, old(fs), tid).Failure? ==>
        r == Failure(CheckDownload(transfers, old(fs), tid).error) && fs == old(fs)
      ensures CheckDownload(transfers, old(fs), tid).Success? ==>
        tid in transfers && Delivers(old(fs), transfers[tid], userAgent, downloadDir, defaultDownloads, r, fs)
    {
      var c := CheckDownload(transfers, fs, tid);
      if c.Failure? {
        return Failure(c.error);
      }
      ReadySessionHasBasePath(transfers, uploadFolder, fs, tid);
      r := Deliver(c.value, userAgent, downloadDir, defaultDownloads);
    }

    /** The answer `r` and the file system `fs` that delivering the session
        `t` from `fs0` gives, by the packaging the client calls for. */
    ghost predicate Delivers(fs0: set<Path>, t: Transfer, userAgent: string, downloadDir: string,
                             defaultDownloads: Path, r: Result<Delivered, DownloadError>, fs: set<Path>)
    {
      && (ChoosePackaging(t.isDirectory, userAgent) == SingleFile ==>
            fs == fs0 && t.files != [] &&
            r == Success(SendFile(t.files[0].path, Basename(t.files[0].path))))
      && (ChoosePackaging(t.isDirectory, userAgent) == MobileZip ==>
            fs == fs0 &&
            r == Success(SendZip(Basename(t.filename) + ".zip", ZipEntries(t.files, fs0, lib.normPath))))
      && (ChoosePackaging(t.isDirectory, userAgent) == DesktopCopy ==>
            CopiedToFolder(fs0, t, TargetBase(downloadDir, defaultDownloads, lib.absPath), lib.normPath, r, fs))
    }

    /** The second half of the `/download` route, once every check passed:
        the single-file, zip or copy branch. */
    method Deliver(t: Transfer, userAgent: string, downloadDir: string, defaultDownloads: Path)
      returns (r: Result<Delivered, DownloadError>)
      requires t.files != []
      modifies this
      ensures devices == old(devices) && transfers == old(transfers) && outbox == old(outbox)
      ensures Delivers(old(fs), t, userAgent, downloadDir, defaultDownloads, r, fs)
    {
      var fs0 := fs;
      var packaging := ChoosePackaging(t.isDirectory, userAgent);
      if packaging == SingleFile {
        r := Success(SendFile(t.files[0].path, Basename(t.files[0].path)));
      } else if packaging == MobileZip {
        r := Success(SendZip(Basename(t.filename) + ".zip", ZipEntries(t.files, fs, lib.normPath)));
      } else {
        r, fs := CopyToFolder(fs, t, TargetBase(downloadDir, defaultDownloads, lib.absPath), lib.normPath);
      }
      assert Delivers(fs0, t, userAgent, downloadDir, defaultDownloads, r, fs);
    }
  }
}
