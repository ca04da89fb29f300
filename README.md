# LocalShare transfer coordinator in Dafny

LocalShare lets devices on one local network send files and folders to each
other through a small server. The server (`app.py`) keeps two in-memory
tables: the registry of connected devices (`connected_devices`), keyed by
Socket.IO connection id, and the table of transfer sessions
(`active_transfers`), keyed by a random session id. Socket.IO handlers
register and drop devices and move a session through request, accept,
reject and complete; the `/upload` route stores the files of an accepted
session and marks it ready once the declared number of files has arrived;
the `/download/<id>` route hands a ready session to the recipient as a
single file, as a zip for phones, or as a copy into a local folder for
desktop clients.

This project models that coordinator and proves properties of the model.

- `wrappers.dfy` (`Wrappers`): `Option` and `Result`.
- `paths.dfy` (`Paths`): paths as strings, plus the file system as the set
  of paths that exist. It covers joining, the final component, creating a
  path with its parents, removing a tree, and the two path rewrites of the
  desktop copy. Containment (`IsUnder`) is read on the text alone. `Location`
  resolves `.`, `..` and repeated separators lexically, and the lemmas about
  it say where a joined path actually lands.
- `network.dfy` (`Network`): the loopback filter and the choice of a
  client's address from `X-Forwarded-For` / `REMOTE_ADDR`.
- `registry.dfy` (`Registry`): device records, the default device name,
  and admission of a new connection with eviction of every other device
  from the same address.
- `transfers.dfy` (`Transfers`): the session record, accept, the upload
  validation chain, the storage path, and counting an upload with the
  completion check.
- `delivery.dfy` (`Delivery`): the User-Agent classification, the
  three-way packaging choice, the zip contents, the unique-folder loop and
  the copy loop. Each loop is a method proved against a function
  (`UniqueFolder`, and `CopyTree` against `CopyRun`).
- `coordinator.dfy` (`Coordinator`): the class `Server`. Its fields are
  the two tables, the file system and an append-only outbox of emitted
  events. It has one method per handler or route. Each method states its
  whole new state and keeps `Valid()`, which says:
  - records are keyed by their own id;
  - no two devices share an address;
  - every session is well formed for its own upload folder.

Inputs the server gets from its environment are parameters:
- the fresh session id (`os.urandom`);
- timestamps;
- the interface addresses;
- the home Downloads folder.

The three library path functions (`secure_filename`, `os.path.normpath`,
`os.path.abspath`) are opaque function values in `PathLib`.

The code differs from a plain reading of its intent in a few places. The
model follows the code:
- the relative path of a directory upload is used unsanitised, so an
  absolute path, or one with `..` segments, escapes the session folder
  (`Transfers.StoredPath`, `Transfers.ParentStepEscapesSession`);
- the desktop copy strips the first component of each relative path on its
  own, not a prefix shared by all records;
- a copy that succeeds for only some files still reports plain success with
  the count;
- reject deletes only the table entry, not the uploaded files;
- accept does not look at the prior status.

Three handlers fail part-way when the calling connection is not registered,
and the model keeps the partial state each one leaves:
- a request leaves the new session stored and answers with the internal
  error;
- an accept keeps the status change and answers with the internal error;
- a reject by an unregistered connection changes nothing while the sender
  is connected.

## Model

| member | source | states |
|---|---|---|
| Paths.JoinPath | app.py:160-167 | joining puts the relative part one separator below the base in the text (`.` and `..` are kept, not resolved), and an absolute right operand replaces the base |
| Paths.JoinLocation | app.py:164 | a relative path without `..` components, joined to a base, lands at the base's location extended by that path's own components |
| Paths.JoinParentEscapes | app.py:164 | `base/../name` is textually below the base but lands beside the base's last directory, not inside the base |
| Paths.Basename | app.py:307 | the final component contains no separator, is a suffix of the path, and is preceded by a separator when shorter |
| Paths.AncestorsAreAbove | app.py:342 | every directory `makedirs` creates for a path is a strict prefix of it ending at a separator |
| Paths.Create | app.py:170-173 | creating a path with its parents keeps everything that existed, adds the path and every directory above it, and adds nothing else |
| Paths.RemoveTree | app.py:561-563 | removing a tree deletes the folder and every path textually below it, and keeps everything else |
| Paths.ToPosix | app.py:331-332 | backslashes become separators, every other character is kept, the length is unchanged |
| Paths.ToPosixKeepsPosix | app.py:331-332 | a path without backslashes is left unchanged |
| Paths.StripFirst | app.py:334-338 | a path without a separator is kept; otherwise the components after the first are joined as `os.path.join` joins them, and the result never starts at the root |
| Paths.SplitPieces | app.py:334 | no piece of `split('/')` holds a separator, and there is more than one piece exactly when the path has a separator |
| Paths.SplitJoined | app.py:334 | putting the pieces of a split back together with separators gives the path back |
| Paths.JoinAll | app.py:337 | `os.path.join` of separator-free components never starts at the root |
| Paths.JoinAllJoined | app.py:337 | when no component before the last is empty, `os.path.join` puts exactly one separator between each two components |
| Paths.JoinAllLocation | app.py:337 | `os.path.join` of components, after any leading components, leads where the components themselves lead: the separators it drops or keeps change the text, not the place |
| Paths.StripFirstComponent | app.py:334-338 | stripping `top/rest`, for any `top` without a separator, leads where `rest` leads, gives `rest` back when `rest` has no leading or doubled separator, and a different text when it has one |
| Paths.JoinAllShorter | app.py:337 | `os.path.join` of components is never longer than the components with one separator between each two, and strictly shorter when a component before the last is empty |
| Network.NonLoopback | app.py:58 | the kept addresses are exactly the input addresses not starting with `127.`, and the first kept one is the first such address |
| Network.FirstField | app.py:63 | the text before the first comma: comma-free, a prefix, followed by a comma when shorter |
| Network.ReportedIp | app.py:62-65 | a non-empty forwarded header gives exactly its first comma-separated field; otherwise the remote address |
| Network.DeviceIp | app.py:60-73 | a reported address that is not `127.0.0.1`/`localhost` is kept; a local one becomes the first non-loopback interface address, or stays when there is none |
| Registry.DefaultName | app.py:398 | the default name is `Device_` followed by the first six characters of the id (all of a shorter id) |
| Registry.NameFor | app.py:398 | the requested name if given, the default name otherwise |
| Registry.Evictees | app.py:402-405 | the evicted connections are exactly the other ids registered from the same address |
| Registry.Admit | app.py:401-416 | after connecting from `ip`: the new id maps to its record, it is the only device with `ip`, devices with other addresses are untouched, nothing else appears; keyed-by-id and unique addresses are preserved |
| Registry.LatestArrivalWins | app.py:401-416 | after any run of connections from one address, only the last one is registered for that address |
| Transfers.NewTransfer | app.py:444-455 | a new session is pending with no uploads, goes from the sender to the target, and takes the defaults `unknown`, 0, not a directory and one file for missing fields |
| Transfers.Accept | app.py:509-513 | accept sets `accepted` and the time whatever the prior status, keeps sender, recipient, files and counts, and preserves well-formedness |
| Transfers.TransferPath | app.py:160 | a session's folder is the upload folder, a separator and the id for a relative id, and the id itself for an absolute one |
| Transfers.StoredPath | app.py:160-167 | a directory upload is stored at its raw relative path, textually below the session folder (an absolute one replaces it), a single file at its sanitised name |
| Transfers.StoredPathStaysInside | app.py:162-164 | a directory upload whose relative path is relative and has no `..` component lands inside the session folder, at the folder's location extended by that path |
| Transfers.ParentStepEscapesSession | app.py:162-164 | a directory upload with relative path `../name` lands outside the session folder |
| Transfers.SingleFileKeepsName | app.py:165-167 | a single file saved under its sanitised name has that name as the basename it is later sent back under |
| Transfers.RecordUpload | app.py:176-191 | an upload adds exactly one to the count and appends exactly one record; the session becomes ready, with its folder and time, exactly when the count reaches the total; well-formedness is preserved |
| Transfers.CheckUpload | app.py:131-157 | refusals come in order (no file part, no id, unknown id, status not accepted with that status, empty file name), each exactly when all earlier checks pass; success is exactly when all pass |
| Transfers.ReadyExactlyAtTotal | app.py:151-191 | from an accepted session short of its total, a run of uploads stores exactly the missing number of files, becomes ready exactly when the run is long enough, and refuses the rest |
| Transfers.ReacceptExceedsTotal | app.py:509-513 | accepting a ready session reopens it, and one more upload pushes the count past the total |
| Delivery.ToLower | app.py:245 | ASCII lower-casing, character by character |
| Delivery.IsMobileIgnoresCase | app.py:245-246 | the mobile classification does not depend on letter case |
| Delivery.IsMobileInContext | app.py:245-246 | a User-Agent that counts as mobile still does with any text around it |
| Delivery.ChoosePackaging | app.py:249-283 | single file exactly for non-directories, zip exactly for a directory and a mobile client, copy exactly for a directory and any other client |
| Delivery.ZipEntries | app.py:257-267 | the zip holds one entry per record whose stored file exists, each under its normalised relative path, and nothing else |
| Delivery.CountPresentZero | app.py:355-356 | the count of present files is zero exactly when none is present |
| Delivery.DecimalRoundTrip | app.py:314 | the decimal digits of a counter read back as the counter |
| Delivery.CandidateInjective | app.py:311-315 | different counters give different folder names |
| Delivery.UniqueFolder | app.py:311-315 | the chosen folder is the first of `name`, `name_1`, `name_2`, … that is not among the existing paths |
| Delivery.CopyTarget | app.py:326-338 | every record's copy target is textually below the destination folder, whatever separators the relative path holds |
| Delivery.FolderRecordLandsBelowDest | app.py:326-338 | a record `top/rest` of an uploaded folder is copied to where `dest/rest` leads; to `dest/rest` itself when `rest` has no leading or doubled separator; inside the destination folder when `rest` has no `..` component |
| Delivery.CopyRun | app.py:321-353 | the copy loop records one source index per copy and copies at most once per record |
| Delivery.CopyRunFootprint | app.py:339-348 | the loop only adds to the file system, and only targets and directories above them |
| Delivery.CopyRunOrigins | app.py:321-353 | each copy is the target of a record, in record order, one per record at most |
| Delivery.CopyRunCopiesExist | app.py:346-348 | every copied target exists afterwards, and so does the stored file it came from |
| Delivery.CopyRunCopiesPresent | app.py:346-348 | every record whose stored file existed beforehand is copied |
| Delivery.CopyRunCount | app.py:321-353 | the number of copies lies between the number of stored files present before and after the loop |
| Delivery.CopyRunNothingCopied | app.py:355-356 | nothing is copied only if no stored file existed, and nothing is copied if none exists afterwards |
| Delivery.CopyRunCountExact | app.py:321-353 | when stored files and targets do not overlap, the number of copies is exactly the number of stored files that exist |
| Delivery.CopyTree | app.py:321-353 | the copy loop computes `CopyRun`: its file system and its list of copies |
| Coordinator.CheckDownload | app.py:220-242 | download refusals come in order (no id, unknown id, not ready with the status, missing base path as a 500, folder gone), each exactly when all earlier checks pass |
| Coordinator.ReadySessionHasBasePath | app.py:239-242 | for well-formed sessions the missing-base-path 500 never happens, and a downloadable session has files and its own folder |
| Coordinator.Completed | app.py:559-564 | completing removes only that session and, when its folder exists, that folder and every path textually below it; when the folder does not exist the file system is unchanged |
| Coordinator.CompleteIdempotent | app.py:559-564 | completing the same session a second time changes nothing |
| Coordinator.TargetBase | app.py:291-299 | the destination base is the requested folder made absolute, or the Downloads folder when none is given |
| Coordinator.FinishCopy | app.py:355-381 | some copies give success with their number; none gives failure, and the destination folder is removed exactly when it exists and is empty |
| Coordinator.CollectEvictees | app.py:402-405 | the first connect loop collects exactly the other ids registered from the same address |
| Coordinator.RemoveAll | app.py:407-408 | the second connect loop deletes exactly the collected ids |
| Coordinator.MakeTargetFolder | app.py:303-318 | the download folder is created, then the first name derived from the session's folder name that is not among the existing paths, and nothing else |
| Coordinator.CopyToFolder | app.py:303-381 | the desktop branch creates the base, picks the first free folder name, creates it, copies, and ends as `FinishCopy` says |
| Coordinator.Server.constructor | app.py:32-43 | given a folder name that does not exist yet (what `mkdtemp` picks), the server starts with no devices, no sessions, an empty outbox and that folder created and empty |
| Coordinator.Server.Connect | app.py:395-418 | the registry becomes `Admit` of the connection and the roster is broadcast; the invariant is kept |
| Coordinator.Server.Disconnect | app.py:420-426 | only that id is removed and the roster broadcast; an unknown id changes nothing and broadcasts nothing |
| Coordinator.Server.RequestTransfer | app.py:428-482 | no target: nothing; unknown target: error to the sender and no session; otherwise a pending session is stored, and then the target gets the request and the sender the confirmation, or the sender gets the internal error when it is not registered |
| Coordinator.Server.AcceptTransfer | app.py:484-528 | no id: nothing; unknown session or departed sender: error and no change; otherwise the session is accepted, and then the sender gets the upload URL, or the acceptor gets the internal error when it is not registered |
| Coordinator.Server.RejectTransfer | app.py:530-554 | unknown id: nothing; a departed sender: the session is deleted silently; a connected sender: it is told and the session deleted, unless the rejecter is unregistered, which changes nothing |
| Coordinator.Server.CompleteTransfer | app.py:556-564 | the session table and file system become `Completed` of the session |
| Coordinator.Server.Upload | app.py:125-213 | the answer is `CheckUpload`; a refusal changes nothing; a success saves the file at `StoredPath` and records it, and notifies the recipient exactly when the count reaches the total |
| Coordinator.Server.Save | app.py:158-191 | once the checks pass: the file system gains the stored path with its parents, the session records the upload as `RecordUpload` says, the recipient is told exactly when the count reaches the total, and nothing else changes |
| Coordinator.Server.Download | app.py:215-393 | refusals are `CheckDownload`'s and change nothing; a session that passes is delivered as `Delivers` says; the tables and the outbox never change |
| Coordinator.Server.Deliver | app.py:244-393 | a single file is sent under its basename, a phone gets `ZipEntries`, a desktop gets `CopyToFolder`; only the copy changes the file system |

## Left out

- File contents are not modelled: bytes, sizes, `MAX_CONTENT_LENGTH`, zip compression, `send_file`, `file.save` and `shutil.copy2`. A file exists or it does not.
- Failures of the file system itself are not modelled: a full disk, permissions, or a path component that is a file. These would become per-file `continue`s in the copy loop and 500 answers elsewhere.
- The 500 answers of `/upload` and `/download` for unexpected exceptions are not modelled. The only one modelled is the missing base path, which `Coordinator.ReadySessionHasBasePath` shows cannot happen.
- `secure_filename`, `os.path.normpath` and `os.path.abspath` are opaque functions, so their results are not constrained.
- Pathlib drops empty components and `os.path.join` collapses a trailing separator of its base. Paths are joined with exactly one separator, so a relative path that is empty, or a base that is `/`, yields a different string than Python does.
- Paths.StripFirstComponent: when `rest` has a leading or doubled separator, `os.path.join` drops the empty components, so the text differs from `rest` and only the place it leads to is the same.
- Paths.IsUnder: containment is a test on the text. `.` and `..` segments are neither normalised nor resolved, so a path with `..` can be textually below a folder it lies outside of. `Paths.Location` resolves them lexically; symbolic links and `..` above the root are not modelled.
- Paths.JoinPath: keeps `.` and `..` segments as text, as pathlib keeps `..`. Pathlib drops `.` segments, which changes the text but not the place (`Paths.JoinLocation`).
- Transfers.StoredPath: its `IsUnder` clauses are textual. A relative path with `..` segments lands outside the session folder (`Transfers.ParentStepEscapesSession`); only one without them is proved to stay inside.
- Delivery.CopyTarget: its `IsUnder` clause is textual. `os.path.normpath` can leave a leading `..` in the relative path, and the copy then lands outside the destination folder.
- Coordinator.MakeTargetFolder, Coordinator.CopyToFolder: whether a candidate destination exists is decided on the text (`Delivery.UniqueFolder` tests membership in the set of paths), not by the place it names. When the basename of the session's `filename` is empty, `.` or `..` (a name ending in `/`, or `..` itself), the first candidate is `Downloads/`, `Downloads/.` or `Downloads/..`. `os.path.exists` finds that folder and the program moves on to the `_1` name, a new folder inside the download folder. The model takes the candidate itself and copies into the download folder, or for `..` into the folder above it.
- Paths.Create, Paths.RemoveTree: the file system is a set of path strings, so two spellings of one place (`a/../b` and `b`) are two entries. `shutil.rmtree` removes what lies inside the folder on disk; `Paths.RemoveTree` removes the paths textually below it.
- Coordinator.Completed: inherits the textual removal of `Paths.RemoveTree`. A file an upload wrote through a `..` path outside the session folder stays on disk, while the model drops its entry when its text lies below the folder.
- Windows (`os.name == 'nt'`) branches are not modelled. The model is POSIX only.
- Lower-casing is ASCII only. Python's `str.lower` also folds non-ASCII letters.
- JSON payload values have fixed types: the target is a string, the size and file count are integers, and the directory flag is a boolean. Python would accept any JSON value and test its truthiness.
- Interface enumeration through netifaces is not modelled. The interface addresses are an input, and the loopback filter is modelled.
- Not modelled: the QR code, port finding, the start-up code, the index page, the empty `cleanup_old_transfers` stub, and logging.
- Concurrency is not modelled: the server is one sequential object, and handlers run one at a time.
- Python dict iteration order is not modelled. The eviction loop collects a set, and the resulting registry does not depend on the order.
