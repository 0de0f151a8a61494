# Hotchpotch OS launcher: synchronisation bookkeeping in Dafny

This project models the core of `client/public.data.py`. That program exposes documents of the Hotchpotch store as plain files, so that ordinary applications can edit them. The model covers four parts of the program:

- **DocSyncer** (module `DocSync`). It keeps one document and one local file convergent. The cached state is the tracked revision, the META and FILE part hashes, the local path, the debounce timer and the store subscription. A pull (`__update`) adopts the first current revision. It renames the file when the META hash changed and rewrites it when the FILE hash changed. A push (`__syncToHotchpotch`) commits the local file when its digest differs from the cached FILE hash. The commit carries an annotation comment saying an external application changed the file.
- **File name derivation** (modules `Naming` and `PathText`). The stem comes from the annotation title, then the origin, then the hex form of the document id. The extension comes from the title, then the type registry, then the origin, then `.bin`. `os.path.splitext` and `os.path.join` are modelled on strings as the POSIX path module (`posixpath`) defines them, with `/` as the only separator and no drives, and the hex codec in module `Hex`.
- **SyncManager** (modules `SyncManager`, `RegistryInvariant`, `RevisionCache`). It keeps three maps: path to syncer, document to syncer, and revision to path. Its operations are lookup and start, re-keying on rename, dropping a syncer whose file vanished, and shutdown.
- **Requests** (module `Requests`). This covers the dispatch of `doc:<hex>`, `rev:<hex>` and `kill` in `__process`, and the command-line check.

Every handler is a pure function from an immutable record to the next record. The store, the filesystem, the type registry, the content digest and the outcomes of `os.rename` and of a commit are parameters. The store is a map from documents to current revisions plus a map from revisions to their parts. The filesystem is a map from path to bytes. The digest is a function from bytes to a hash. The rename and commit outcomes are a flag and an optional new revision. A Python exception becomes a `Failure` value, returned next to the state as far as the source had updated it when the exception was raised. For example, a pull that fails while naming the file has already adopted the new revision and META hash.

The model follows the code as written, including these behaviours:
- A document whose META part has no `org.hotchpotch.annotation` record does not fall back to the hex id. At line 108 the source reads the unbound local `annotation` and raises NameError. The same happens when reading META raised IOError (lines 98-99), because `meta = {}` then. `Naming.DeriveLeaf` returns `Err(AnnotationUnbound)` exactly in these cases, and a pull stops there.
- The extension chain also tries the origin's extension before `.bin` (lines 117-119).
- A failed rename is swallowed without any warning (lines 131-133).
- The class `RevSyncer` used by `getRevFile` is defined nowhere in the module (see Findings).

`SyncManager.GetDocFile` reports `NoPath` for a registered syncer without a path, where the source would return None; the registry invariant rules that case out.

Syncers are identified by their document id inside SyncManager: `pathToSyncer` maps a path to a document. `RegistryInvariant` proves this is sound: every operation keeps each path entry pointing to a live syncer whose current path is that key.

## Model

| member | source | states |
|---|---|---|
| `PathText.SplitExt` | client/public.data.py:106 | splitext returns a root and an extension that concatenate to the input; a non-empty extension is a dot followed by no dot and no separator |
| `PathText.SplitExtCharacterised` | client/public.data.py:106-109 | splitext splits at a position exactly when that position is the last dot of the basename with a non-dot character before it in the basename; otherwise the extension is empty |
| `PathText.Join` | client/public.data.py:123 | join ends with the leaf; an absolute leaf replaces the base; otherwise the leaf follows the base directly exactly when the base is empty or already ends with a separator, and follows an inserted separator otherwise |
| `PathText.JoinKeepsExtension` | client/public.data.py:106-123 | the joined path has the same splitext extension as the leaf, so the directory part never changes the derived extension |
| `Hex.Encode` | client/public.data.py:111 | the hex form of an id is twice as long as the id and uses only lower-case hex digits |
| `Hex.Decode` | client/public.data.py:314 | decoding succeeds exactly on even-length strings of hex digits of either case, yielding half as many bytes |
| `Hex.DecodeEncode` | client/public.data.py:111 | decoding the hex form of any byte string gives that byte string back |
| `Hex.EncodeDecode` | client/public.data.py:314 | a decodable id, re-encoded, is the request's id with its digits in lower case |
| `Naming.DeriveLeaf` | client/public.data.py:101-121 | the name fails exactly when META has no annotation record (the NameError); otherwise the stem is the first non-empty of title stem, origin stem, hex id, and the extension is the first non-empty of title extension, first registry extension, origin extension, `.bin`, so it is never empty |
| `Naming.TitleIsFileName` | client/public.data.py:103-106 | a title with both a stem and an extension becomes the file name unchanged |
| `Naming.OriginIsFileName` | client/public.data.py:107-119 | with no title and no registry extension, an origin with stem and extension becomes the file name unchanged |
| `Naming.HexStemNamesDocument` | client/public.data.py:110-111 | with neither title nor origin, the stem decodes back to the document id |
| `DocSync.MoveFile` | client/public.data.py:128-129 | a rename puts the old content at the new path, removes the old path and leaves every other file alone |
| `DocSync.Relocate` | client/public.data.py:123-135 | the path becomes the new path unless an attempted rename fails, in which case the path and the files stay as they were; an existing file is moved, never copied; fileNameChanged carries the old path and fires exactly when the path changed |
| `DocSync.TargetPath` | client/public.data.py:95-123 | the target fails with NameError exactly when META is unreadable or has no annotation record; otherwise it is the base path joined with the derived name plus extension, so it ends with that file name and is never empty |
| `DocSync.UpdateFileName` | client/public.data.py:94-135 | only the path can change; the name derivation failing leaves everything unchanged and reports NameError; otherwise the file is relocated to the derived path |
| `DocSync.SyncToFilesystem` | client/public.data.py:162-166 | the debounce timer is stopped, then the file at the syncer's path holds exactly the given content; with no path the write fails and no file changes |
| `DocSync.RenameStep` | client/public.data.py:83-86 | a changed META hash is cached and the file name recomputed; an unchanged one leaves the syncer and the files untouched |
| `DocSync.Reconcile` | client/public.data.py:83-92 | once a revision is adopted its META hash is cached and, when the name derivation succeeds, its FILE hash too; a failed name derivation is exactly the rename step's result; otherwise the pull fails exactly when the FILE hash differed and the syncer has no path; the path and signal are the rename step's, so the path changes only when the META hash differed; the filesystem is exactly the rename step's when the FILE hash is unchanged or the pull failed, and that filesystem with only the file at the syncer's path replaced by the FILE part when the FILE hash differed; equal hashes change nothing |
| `DocSync.Update` | client/public.data.py:74-92 | an unknown document, or a tracked revision that is still current, changes nothing; an empty revision list or an unknown first revision fails, the latter after adopting the revision id only; otherwise the first listed revision is adopted and reconciled: the META hash is cached, the path and signal are the rename step's, a failed name derivation stops the pull with its files, otherwise the pull fails exactly when the FILE hash differed and there is no path, and the filesystem is exactly the rename step's plus only the syncer's file rewritten with the FILE part when the FILE hash differed; a pull never arms the timer and signals a move exactly when the path changed |
| `DocSync.Triggered` | client/public.data.py:67-69 | a store notification pulls only when it reports modified content and the debounce timer is inactive, and otherwise changes nothing |
| `DocSync.FileModified` | client/public.data.py:71-72 | arms the debounce timer and changes nothing else |
| `DocSync.StopSync` | client/public.data.py:57-59 | drops the store subscription and stops the timer, nothing else |
| `DocSync.StartSync` | client/public.data.py:49-55 | the syncer ends up subscribed exactly when the initial pull succeeds, so a failed start leaves no subscription behind |
| `DocSync.Annotate` | client/public.data.py:152-156 | the committed META has an annotation (created if missing) whose comment is the external-change note; every other annotation field and every other META entry is preserved |
| `DocSync.SyncToStore` | client/public.data.py:137-160 | content whose digest equals the cached FILE hash commits nothing; a commit is made against the tracked revision with the annotated META and the local file bytes, after which the tracked revision and FILE hash are the new ones; any failure, including a refused commit, leaves the state unchanged |
| `DocSync.TimerFired` | client/public.data.py:44-47 | a firing leaves the timer stopped; a stopped timer never pushes; a push changes nothing in the syncer but the timer, the tracked revision and the FILE hash |
| `Convergence.UpdateSettles` | client/public.data.py:74-77 | after a successful pull, pulling again against the same store changes nothing |
| `Convergence.RelocateKeepsSynced` | client/public.data.py:124-133 | moving a synced file keeps the cached FILE hash equal to the digest of the file at the syncer's path |
| `Convergence.UpdateKeepsSynced` | client/public.data.py:74-92 | from a synced state a successful pull stays synced, and a pull that adopted a revision caches that revision's FILE hash |
| `Convergence.StartSyncEstablishesSync` | client/public.data.py:49-92 | a new syncer starts successfully whenever the store holds the document's first current revision with an annotated META part; it then has a file synced with that revision, is subscribed, and has no timer running |
| `Convergence.PushKeepsSynced` | client/public.data.py:148-160 | a push that commits leaves the syncer synced with the local file, which is exactly the committed FILE part, and tracking the new revision |
| `Convergence.UnchangedFileCommitsNothing` | client/public.data.py:147-149 | when the file is unchanged since the last sync, the timer firing makes no commit and changes no cached state |
| `Convergence.PullIsNotPushedBack` | client/public.data.py:137-166 | the file a pull writes is never committed back, even if the filesystem watch re-arms the timer |
| `Convergence.BurstArmsOnce` | client/public.data.py:71-72 | several modification reports in a row leave the same state as one, so they lead to a single push |
| `Convergence.MissingAnnotationStopsPull` | client/public.data.py:86-92 | with no annotation record in a changed META part the pull raises NameError after caching the new revision and META hash but before writing the file, and the next pull sees nothing to do |
| `SyncManager.Init` | client/public.data.py:170-175 | a new manager has all three maps empty |
| `SyncManager.GetDocFile` | client/public.data.py:179-190 | a registered document returns its syncer's path and changes nothing; a new document whose syncer starts is added exactly under its document and its path, the registered syncer being the one startSync produced and the returned path its path; a failed start leaves the manager unchanged |
| `SyncManager.GetRevFileAsWritten` | client/public.data.py:192-200 | as written, only cached revisions succeed; every other revision raises NameError |
| `SyncManager.GetRevFile` | client/public.data.py:192-200 | a cached revision returns its cached path without projecting; a new one returns the projection's result and, on success, is cached; the syncer maps are untouched |
| `SyncManager.Quit` | client/public.data.py:202-210 | both syncer maps are emptied, the revision cache is kept, and every live syncer is returned stopped |
| `SyncManager.PathChanged` | client/public.data.py:212-218 | the syncer registered under the old path is re-keyed to its current path; every other entry and the other maps are untouched; an unregistered old path raises KeyError |
| `SyncManager.FileChanged` | client/public.data.py:220-233 | an unregistered path changes nothing; an existing file arms its syncer's timer only; a vanished file drops its path entry and its syncer's document entry |
| `SyncManager.ApplyPull` | client/public.data.py:212-218 | installing a pulled syncer replaces that syncer and leaves the revision cache alone; on a move the entry under the signalled old path is re-keyed to the current path of the syncer registered there (the pulled syncer's new path when it owns that entry), every other entry untouched; a move from an unregistered or missing path raises KeyError and leaves the path map unchanged |
| `SyncManager.StoreNotified` | client/public.data.py:67-69 | a notification for an unregistered document changes nothing; otherwise it is the registered syncer's handler followed by the re-keying |
| `SyncManager.TimerElapsed` | client/public.data.py:44-47 | the firing syncer runs its push, is replaced by the syncer the push leaves, and the push's commit and failure are reported; no path and no registry key changes |
| `RegistryInvariant.InitValid` | client/public.data.py:173-175 | the empty registry satisfies the invariant |
| `RegistryInvariant.OnePathPerDocument` | client/public.data.py:173-174 | under the invariant no document owns two registered paths |
| `RegistryInvariant.GetDocFileKeepsValid` | client/public.data.py:179-190 | getDocFile keeps the invariant |
| `RegistryInvariant.GetRevFileKeepsValid` | client/public.data.py:192-200 | getRevFile keeps the invariant |
| `RegistryInvariant.QuitKeepsValid` | client/public.data.py:202-207 | quit keeps the invariant |
| `RegistryInvariant.FileChangedKeepsValid` | client/public.data.py:220-233 | dropping a vanished file leaves no entry pointing at the dropped syncer |
| `RegistryInvariant.TimerElapsedKeepsValid` | client/public.data.py:137-160 | a push keeps the invariant |
| `RegistryInvariant.ApplyPullKeepsValid` | client/public.data.py:212-218 | re-keying after a move keeps every path entry equal to its syncer's current path |
| `RegistryInvariant.StoreNotifiedKeepsValid` | client/public.data.py:67-92 | a store notification, with any rename it causes, keeps the invariant |
| `RevisionCache.CachedPathIsReturned` | client/public.data.py:192-200 | once a revision has a path, every later request returns that path, whatever a new projection would give |
| `RevisionCache.QuitKeepsRevisionPaths` | client/public.data.py:202-207 | a cached revision is still answered from the cache after quit |
| `RevisionCache.AsWrittenRevisionRequestFails` | client/public.data.py:196 | from an empty cache the source's getRevFile fails on any revision, while the corrected one returns the projected path |
| `Requests.Classify` | client/public.data.py:312-323 | a `doc:` or `rev:` prefix decodes the rest as hex (an invalid id is a failure), `doc:` winning; exactly `kill` kills; everything else is ignored |
| `Requests.DocRequestRoundTrip` | client/public.data.py:313-314 | the request line for a document id is classified back to that document id |
| `Requests.ParseArgs` | client/public.data.py:342-348 | no argument starts a server; a request is sent only when there is exactly one argument, and it is that argument |
| `Requests.StartupExit` | client/public.data.py:330-348 | the argument check (lines 342-348) exits with status 1 exactly when there is more than one argument or the one argument is a request the server would ignore |
| `Requests.AcceptedExactlyWhenServed` | client/public.data.py:342-348 | the command line accepts a single argument exactly when the server would not ignore it, and prints usage for any other argument list |
| `Requests.Respond` | client/public.data.py:325-327 | a resolved path is opened, and a failure is reported instead of opening anything |
| `Requests.Process` | client/public.data.py:312-323 | a document request resolves through getDocFile and opens the path or reports the failure; a revision request does the same through getRevFile; kill shuts the manager down; an ignored request changes nothing; undecodable hex fails with no change |

## Findings

| source | as written | input that shows it | evidently intended | confidence | as-written member | corrected member |
|---|---|---|---|---|---|---|
| client/public.data.py:196 | `getRevFile` constructs `RevSyncer`, which the module neither defines nor imports, so every uncached revision raises NameError and `revToPath` is never filled | the request `rev:00` sent to a freshly started server | project the revision to a file once, return its path and cache it permanently | high (not executed) | `SyncManager.GetRevFileAsWritten` | `SyncManager.GetRevFile` |

The rest of the model (`Requests.Process`) uses `SyncManager.GetRevFile`. The path the projection yields, or its failure, is a parameter there. `RevisionCache.AsWrittenRevisionRequestFails` shows the two definitions disagree on a fresh server.

## Left out

- The local-socket client/server negotiation is IPC plumbing and is not modelled. This covers `request`, `serve`, `__finished`, `__clientConnect`, `__clientError`, `__serverConnect`, `__serverDisconnect` and `__serverReady` (lines 246-310), and the start-up at lines 350-361. A `kill` request is modelled only as the manager's shutdown.
- The Qt event loop, signals and `QTimer` timing are not modelled. The debounce timer is a flag, with no 3000 ms interval. The fileNameChanged signal is a returned value, consumed by `SyncManager.ApplyPull`.
- `QFileSystemWatcher` add/remove calls only subscribe to watches. The registry maps carry the observable state.
- `os.path.abspath` and `QDesktopServices.openUrl` (lines 326-327) hand the path to the OS. The model stops at the path to open.
- The chunked SHA-1 read (lines 140-148) is a `digest` function parameter.
- `struct.loads`/`struct.dumps`, `Registry().search` and `Connector` are foreign libraries. The store, decoded META parts and registry are parameters, and the rename and commit outcomes are given values.
- A revision missing its META or FILE part is not modelled (the source marks this FIXME at line 82). Every revision the store holds reports both part hashes.
- Writing the local file in `__syncToFilesystem` always succeeds. An IOError from `open(path, "wb")` or from the peek after truncation is not modelled.
- The `usage()` text is not modelled. Only the decision to print usage and exit with status 1 is (`Requests.StartupExit`).
- `getDoc`/`getPath` are field reads of the syncer record. The QString-to-str conversion at line 221 is the identity on strings.
- SyncManager.StoreNotified: states only the routing to the syncer's handler followed by `SyncManager.ApplyPull`. The effect on the maps is stated by the contract of `SyncManager.ApplyPull` and by `RegistryInvariant.StoreNotifiedKeepsValid`.
