/** DocSyncer: keeps one store document and one local file convergent.
    The syncer is an immutable record; each handler of the source class is
    a function from the record (plus the store, the filesystem and the
    outcomes of foreign calls) to the next record. A handler that raises
    returns the state as far as the source had updated it when it raised,
    together with the failure. */
module DocSync {
  import opened Types
  import Naming
  import PathText

  type DocId = Bytes
  type RevId = Bytes

  /** A part hash reported by the store, or the truncated SHA-1 digest of
      local content. */
  type Hash = Bytes

  /** The local filesystem: the regular files that exist and their bytes. */
  type Fs = map<string, Bytes>

  /** What the store holds for one revision: the META and FILE part hashes
      and the type code reported by stat, the decoded META part (None when
      reading it raises IOError) and the FILE part. */
  datatype RevInfo = RevInfo(metaHash: Hash, fileHash: Hash, typeCode: string,
                             meta: Option<Naming.Meta>, file: Bytes)

  /** The store as a syncer sees it: the current revisions of each document,
      in the order lookup_doc reports them, and the content of each revision. */
  datatype Store = Store(heads: map<DocId, seq<RevId>>, revs: map<RevId, RevInfo>)

  /** Everything a pull consults besides the syncer and the filesystem: the
      store, the type registry (type code to candidate extensions) and
      whether an attempted os.rename succeeds. */
  datatype Env = Env(store: Store, registry: map<string, seq<string>>, renameOk: bool)

  /** A store notification about the watched document. */
  datatype DocEvent = ContentModified | OtherEvent(code: nat)

  /** The cached synchronisation state of one document. `timerActive` is the
      debounce timer, `watching` the store-notification subscription. */
  datatype Syncer = Syncer(doc: DocId, basePath: string, rev: Option<RevId>,
                           metaHash: Option<Hash>, fileHash: Option<Hash>,
                           path: Option<string>, timerActive: bool, watching: bool)

  /** The fileNameChanged signal, carrying the path before the move. */
  datatype Signal = Quiet | FileNameChanged(oldPath: Option<string>)

  /** Outcome of a handler that may touch the local filesystem. */
  datatype Step = Step(syncer: Syncer, fs: Fs, signal: Signal, failure: Option<Failure>)

  /** A revision committed by a push: the document, the base revision it was
      opened against, the META and FILE parts written, and the new revision. */
  datatype Commit = Commit(doc: DocId, base: RevId, meta: Naming.Meta, file: Bytes, newRev: RevId)

  /** Outcome of a push: the commit made, if any. */
  datatype Push = Push(syncer: Syncer, commit: Option<Commit>, failure: Option<Failure>)

  const AnnotationKey: string := "org.hotchpotch.annotation"
  const CommentKey: string := "comment"
  const ExternalChangeNote: string := "<<Changed by external app>>"

  /** A freshly constructed syncer: nothing cached, no file, timer stopped,
      not subscribed. */
  function NewSyncer(doc: DocId, basePath: string): Syncer
  {
    Syncer(doc, basePath, None, None, None, None, false, false)
  }

  /** The syncer's tracked revision is still one of the document's current
      revisions, so a pull has nothing to do. */
  predicate IsCurrent(s: Syncer, store: Store)
  {
    s.doc in store.heads && s.rev.Some? && s.rev.value in store.heads[s.doc]
  }

  /** A pull would adopt the first listed revision, and the store holds it. */
  predicate Adopts(s: Syncer, store: Store)
  {
    s.doc in store.heads && !IsCurrent(s, store) && |store.heads[s.doc]| > 0
    && store.heads[s.doc][0] in store.revs
  }

  /** os.rename(old, new): the file is moved, not copied; a file already at
      `new` is replaced; nothing else changes. */
  function MoveFile(fs: Fs, src: string, dst: string): (r: Fs)
    requires src in fs && src != dst
    ensures dst in r && r[dst] == fs[src] && src !in r
    ensures forall p :: p != src && p != dst ==> (p in r <==> p in fs)
    ensures forall p :: p in r && p != dst ==> r[p] == fs[p]
  {
    (fs - {src})[dst := fs[src]]
  }

  /** The guard `oldPath and os.path.isfile(oldPath)`: a rename is attempted
      only for a non-empty path naming an existing file. */
  predicate RenameAttempted(prev: Option<string>, fs: Fs)
  {
    prev.Some? && prev.value != [] && prev.value in fs
  }

  /** Move the local file to `newPath`. When the file exists the path
      follows only a successful rename; a failed rename keeps the old path
      and the file where it was. The signal fires exactly when the path
      moved. */
  function Relocate(s: Syncer, fs: Fs, newPath: string, renameOk: bool): (r: Step)
    ensures r.failure.None?
    ensures r.syncer == s.(path := r.syncer.path)
    ensures r.syncer.path == s.path || r.syncer.path == Some(newPath)
    ensures r.signal == (if r.syncer.path != s.path then FileNameChanged(s.path) else Quiet)
    ensures r.syncer.path == s.path ==> r.fs == fs
    ensures s.path != Some(newPath) && (renameOk || !RenameAttempted(s.path, fs)) ==>
              r.syncer.path == Some(newPath)
    ensures RenameAttempted(s.path, fs) && !renameOk ==> r.syncer.path == s.path
    ensures r.syncer.path != s.path && RenameAttempted(s.path, fs) ==>
              r.fs == MoveFile(fs, s.path.value, newPath)
    ensures r.syncer.path != s.path && !RenameAttempted(s.path, fs) ==> r.fs == fs
  {
    if s.path == Some(newPath) then Step(s, fs, Quiet, None)
    else if RenameAttempted(s.path, fs) && !renameOk then Step(s, fs, Quiet, None)
    else
      var fs' := if RenameAttempted(s.path, fs) then MoveFile(fs, s.path.value, newPath) else fs;
      Step(s.(path := Some(newPath)), fs', FileNameChanged(s.path), None)
  }

  /** The path the document's file should have under its base directory:
      the derived file name joined to the base path. An unreadable META
      part names nothing, as a META part without an annotation record. */
  function TargetPath(s: Syncer, info: RevInfo, registry: map<string, seq<string>>): (r: Result<string>)
    ensures r.Err? <==> info.meta.None? || info.meta.value.annotation.None?
    ensures r.Err? ==> r.failure == AnnotationUnbound
    ensures r.Ok? ==>
              var exts := if info.typeCode in registry then registry[info.typeCode] else [];
              var name := Naming.DeriveLeaf(info.meta.value, s.doc, exts).value.FileName();
              && r.value == PathText.Join(s.basePath, name)
              && |r.value| >= |name| && r.value[|r.value| - |name|..] == name
    ensures r.Ok? ==> r.value != []
  {
    var meta := if info.meta.Some? then info.meta.value else Naming.EmptyMeta;
    var exts := if info.typeCode in registry then registry[info.typeCode] else [];
    match Naming.DeriveLeaf(meta, s.doc, exts)
    case Err(f) => Err(f)
    case Ok(leaf) => Ok(PathText.Join(s.basePath, leaf.FileName()))
  }

  /** __updateFileName: derive the target path from the revision's META
      part and move the file there. */
  function UpdateFileName(s: Syncer, info: RevInfo, registry: map<string, seq<string>>, fs: Fs, renameOk: bool): (r: Step)
    ensures r.syncer == s.(path := r.syncer.path)
    ensures r.failure.Some? <==> TargetPath(s, info, registry).Err?
    ensures r.failure.Some? ==> r == Step(s, fs, Quiet, Some(AnnotationUnbound))
    ensures r.failure.None? ==> r == Relocate(s, fs, TargetPath(s, info, registry).value, renameOk)
  {
    match TargetPath(s, info, registry)
    case Err(f) => Step(s, fs, Quiet, Some(f))
    case Ok(p) => Relocate(s, fs, p, renameOk)
  }

  /** __syncToFilesystem: stop the debounce timer, then overwrite the local
      file with the FILE part. */
  function SyncToFilesystem(s: Syncer, fs: Fs, content: Bytes): (r: Step)
    ensures !r.syncer.timerActive
    ensures r.syncer == s.(timerActive := false)
    ensures r.signal == Quiet
    ensures s.path.None? ==> r.failure == Some(NoPath) && r.fs == fs
    ensures s.path.Some? ==> r.failure.None? && r.fs == fs[s.path.value := content]
  {
    var s' := s.(timerActive := false);
    match s.path
    case None => Step(s', fs, Quiet, Some(NoPath))
    case Some(p) => Step(s', fs[p := content], Quiet, None)
  }

  /** The rename half of a pull (lines 83-86 of __update): when the META
      hash differs from the cached one it is cached and the file name
      recomputed; otherwise nothing happens. */
  function RenameStep(s: Syncer, info: RevInfo, fs: Fs, env: Env): (r: Step)
    ensures r.syncer == s.(metaHash := Some(info.metaHash), path := r.syncer.path)
    ensures s.metaHash == Some(info.metaHash) ==> r == Step(s, fs, Quiet, None)
    ensures s.metaHash != Some(info.metaHash) ==>
              r == UpdateFileName(s.(metaHash := Some(info.metaHash)), info, env.registry, fs, env.renameOk)
  {
    if s.metaHash != Some(info.metaHash)
    then UpdateFileName(s.(metaHash := Some(info.metaHash)), info, env.registry, fs, env.renameOk)
    else Step(s, fs, Quiet, None)
  }

  /** Lines 83-92 of __update, once revision `info` has been adopted: the
      file is renamed only when the META hash differs from the cached one
      and rewritten exactly when the FILE hash does. The META hash is
      always cached, the FILE hash only when naming succeeded. */
  function Reconcile(s: Syncer, info: RevInfo, fs: Fs, env: Env): (r: Step)
    ensures r.syncer.doc == s.doc && r.syncer.basePath == s.basePath
    ensures r.syncer.watching == s.watching && r.syncer.rev == s.rev
    ensures r.syncer.timerActive ==> s.timerActive
    ensures r.syncer.metaHash == Some(info.metaHash)
    ensures r.failure.None? ==> r.syncer.fileHash == Some(info.fileHash)
    ensures s.metaHash == Some(info.metaHash) ==> r.syncer.path == s.path && r.signal == Quiet
    ensures s.metaHash == Some(info.metaHash) && s.fileHash == Some(info.fileHash) ==> r == Step(s, fs, Quiet, None)
    ensures r.failure.None? && s.fileHash != Some(info.fileHash) ==>
              r.syncer.path.Some? && r.syncer.path.value in r.fs && r.fs[r.syncer.path.value] == info.file
    ensures r.signal.FileNameChanged? ==> r.signal.oldPath == s.path && r.syncer.path != s.path && r.syncer.path.Some?
    ensures r.signal.Quiet? ==> r.syncer.path == s.path
    ensures var named := RenameStep(s, info, fs, env);
            && r.syncer.path == named.syncer.path && r.signal == named.signal
            && (s.fileHash == Some(info.fileHash) || r.failure.Some? ==> r.fs == named.fs)
            && (r.failure.None? && s.fileHash != Some(info.fileHash) ==>
                  r.fs == named.fs[r.syncer.path.value := info.file])
    ensures var named := RenameStep(s, info, fs, env);
            named.failure.Some? ==> r == named
    ensures var named := RenameStep(s, info, fs, env);
            named.failure.None? ==>
              (r.failure.Some? <==> s.fileHash != Some(info.fileHash) && named.syncer.path.None?)
  {
    var named := RenameStep(s, info, fs, env);
    if named.failure.Some? || s.fileHash == Some(info.fileHash) then named
    else
      var written := SyncToFilesystem(named.syncer.(fileHash := Some(info.fileHash)), named.fs, info.file);
      written.(signal := named.signal)
  }

  /** __update, the pull. A tracked revision that is still current means
      nothing to do. Otherwise the first listed revision is adopted; the
      file name is recomputed only when the META hash changed and the file
      rewritten only when the FILE hash changed. */
  function Update(s: Syncer, fs: Fs, env: Env): (r: Step)
    ensures r.syncer.doc == s.doc && r.syncer.basePath == s.basePath
    ensures r.syncer.watching == s.watching
    ensures r.syncer.timerActive ==> s.timerActive
    ensures s.doc !in env.store.heads ==> r == Step(s, fs, Quiet, Some(UnknownDocument))
    ensures IsCurrent(s, env.store) ==> r == Step(s, fs, Quiet, None)
    ensures s.doc in env.store.heads && !IsCurrent(s, env.store) && |env.store.heads[s.doc]| == 0 ==>
              r == Step(s, fs, Quiet, Some(NoRevisions))
    ensures s.doc in env.store.heads && !IsCurrent(s, env.store) && |env.store.heads[s.doc]| > 0 ==>
              r.syncer.rev == Some(env.store.heads[s.doc][0])
    ensures Adopts(s, env.store) ==>
              var info := env.store.revs[env.store.heads[s.doc][0]];
              && r.syncer.metaHash == Some(info.metaHash)
              && (r.failure.None? ==> r.syncer.fileHash == Some(info.fileHash))
              && (s.metaHash == Some(info.metaHash) ==> r.syncer.path == s.path && r.signal == Quiet)
              && (s.metaHash == Some(info.metaHash) && s.fileHash == Some(info.fileHash) ==>
                    r == Step(s.(rev := Some(env.store.heads[s.doc][0])), fs, Quiet, None))
              && (r.failure.None? && s.fileHash != Some(info.fileHash) ==>
                    r.syncer.path.Some? && r.syncer.path.value in r.fs && r.fs[r.syncer.path.value] == info.file)
    ensures Adopts(s, env.store) ==>
              var rev := env.store.heads[s.doc][0];
              var info := env.store.revs[rev];
              var named := RenameStep(s.(rev := Some(rev)), info, fs, env);
              && (s.fileHash == Some(info.fileHash) || r.failure.Some? ==> r.fs == named.fs)
              && (r.failure.None? && s.fileHash != Some(info.fileHash) ==>
                    r.fs == named.fs[r.syncer.path.value := info.file])
              && r.syncer.path == named.syncer.path && r.signal == named.signal
              && (named.failure.Some? ==> r == named)
              && (named.failure.None? ==>
                    (r.failure.Some? <==> s.fileHash != Some(info.fileHash) && named.syncer.path.None?))
    ensures s.doc in env.store.heads && !IsCurrent(s, env.store) && |env.store.heads[s.doc]| > 0
            && env.store.heads[s.doc][0] !in env.store.revs ==>
              r == Step(s.(rev := Some(env.store.heads[s.doc][0])), fs, Quiet, Some(UnknownRevision))
    ensures r.signal.FileNameChanged? ==> r.signal.oldPath == s.path && r.syncer.path != s.path && r.syncer.path.Some?
    ensures r.signal.Quiet? ==> r.syncer.path == s.path
  {
    var store := env.store;
    if s.doc !in store.heads then Step(s, fs, Quiet, Some(UnknownDocument))
    else if IsCurrent(s, store) then Step(s, fs, Quiet, None)
    else if |store.heads[s.doc]| == 0 then Step(s, fs, Quiet, Some(NoRevisions))
    else
      var rev := store.heads[s.doc][0];
      var s1 := s.(rev := Some(rev));
      if rev !in store.revs then Step(s1, fs, Quiet, Some(UnknownRevision))
      else Reconcile(s1, store.revs[rev], fs, env)
  }

  /** triggered: a store notification pulls only when it reports modified
      content and no push is pending on the debounce timer. */
  function Triggered(s: Syncer, event: DocEvent, fs: Fs, env: Env): (r: Step)
    ensures event.OtherEvent? || s.timerActive ==> r == Step(s, fs, Quiet, None)
    ensures event.ContentModified? && !s.timerActive ==> r == Update(s, fs, env)
  {
    if event.ContentModified? && !s.timerActive then Update(s, fs, env) else Step(s, fs, Quiet, None)
  }

  /** modified: the local file changed; (re)start the debounce timer. */
  function FileModified(s: Syncer): (r: Syncer)
    ensures r.timerActive
    ensures r.(timerActive := s.timerActive) == s
  {
    s.(timerActive := true)
  }

  /** stopSync: unsubscribe from the store and stop the debounce timer. */
  function StopSync(s: Syncer): (r: Syncer)
    ensures !r.watching && !r.timerActive
    ensures r.(watching := s.watching, timerActive := s.timerActive) == s
  {
    s.(watching := false, timerActive := false)
  }

  /** startSync: subscribe, then pull; when the pull raises the
      subscription is dropped again before the failure propagates. */
  function StartSync(s: Syncer, fs: Fs, env: Env): (r: Step)
    ensures r.syncer.watching <==> r.failure.None?
    ensures var u := Update(s.(watching := true), fs, env);
            r.failure == u.failure && r.fs == u.fs && r.syncer.(watching := true) == u.syncer
  {
    var r := Update(s.(watching := true), fs, env);
    if r.failure.Some? then r.(syncer := r.syncer.(watching := false)) else r
  }

  /** The META part a push writes: the annotation record (created when
      missing) gains the external-change comment; nothing else changes. */
  function Annotate(meta: Naming.Meta): (r: Naming.Meta)
    ensures r.others == meta.others
    ensures r.annotation.Some? && CommentKey in r.annotation.value
    ensures r.annotation.value[CommentKey] == ExternalChangeNote
    ensures meta.annotation.None? ==> r.annotation.value.Keys == {CommentKey}
    ensures meta.annotation.Some? ==> r.annotation.value.Keys == meta.annotation.value.Keys + {CommentKey}
    ensures meta.annotation.Some? ==>
              forall k :: k in meta.annotation.value && k != CommentKey ==>
                r.annotation.value[k] == meta.annotation.value[k]
  {
    var ann := if meta.annotation.Some? then meta.annotation.value else map[];
    meta.(annotation := Some(ann[CommentKey := ExternalChangeNote]))
  }

  /** __syncToHotchpotch, the push. `digest` is the truncated SHA-1 of
      file content; `outcome` is the revision the store returns for the
      commit, None when it refuses. Unchanged content commits nothing. */
  function SyncToStore(s: Syncer, fs: Fs, store: Store, digest: Bytes -> Hash, outcome: Option<RevId>): (r: Push)
    ensures r.commit.None? ==> r.syncer == s
    ensures r.syncer == s.(rev := r.syncer.rev, fileHash := r.syncer.fileHash)
    ensures s.path.None? ==> r == Push(s, None, Some(NoPath))
    ensures s.path.Some? && s.path.value !in fs ==> r == Push(s, None, Some(FileMissing))
    ensures s.path.Some? && s.path.value in fs && s.fileHash == Some(digest(fs[s.path.value])) ==>
              r == Push(s, None, None)
    ensures r.failure.None? && r.commit.None? ==>
              s.path.Some? && s.path.value in fs && s.fileHash == Some(digest(fs[s.path.value]))
    ensures outcome.None? ==> r.commit.None?
    ensures r.commit.Some? ==>
              var c := r.commit.value;
              && r.failure.None?
              && s.path.Some? && s.path.value in fs
              && c.doc == s.doc && s.rev == Some(c.base) && c.base in store.revs
              && store.revs[c.base].meta.Some?
              && c.meta == Annotate(store.revs[c.base].meta.value)
              && c.file == fs[s.path.value]
              && outcome == Some(c.newRev)
              && r.syncer == s.(rev := Some(c.newRev), fileHash := Some(digest(c.file)))
    ensures (&& s.path.Some? && s.path.value in fs && s.fileHash != Some(digest(fs[s.path.value]))
             && s.rev.Some? && s.rev.value in store.revs && store.revs[s.rev.value].meta.Some?
             && outcome.Some?) ==> r.commit.Some?
  {
    match s.path
    case None => Push(s, None, Some(NoPath))
    case Some(p) =>
      if p !in fs then Push(s, None, Some(FileMissing))
      else
        var data := fs[p];
        var h := digest(data);
        if s.fileHash == Some(h) then Push(s, None, None)
        else if s.rev.None? || s.rev.value !in store.revs then Push(s, None, Some(UnknownRevision))
        else
          var base := s.rev.value;
          match store.revs[base].meta
          case None => Push(s, None, Some(MetaUnreadable))
          case Some(meta) =>
            match outcome
            case None => Push(s, None, Some(CommitRejected))
            case Some(newRev) =>
              Push(s.(rev := Some(newRev), fileHash := Some(h)),
                   Some(Commit(s.doc, base, Annotate(meta), data, newRev)), None)
  }

  /** The debounce timer firing: a single-shot timer stops itself, then the
      push runs. A stopped timer does not fire. */
  function TimerFired(s: Syncer, fs: Fs, store: Store, digest: Bytes -> Hash, outcome: Option<RevId>): (r: Push)
    ensures !r.syncer.timerActive
    ensures r.syncer == s.(timerActive := false, rev := r.syncer.rev, fileHash := r.syncer.fileHash)
    ensures !s.timerActive ==> r == Push(s, None, None)
    ensures s.timerActive ==> r == SyncToStore(s.(timerActive := false), fs, store, digest, outcome)
  {
    if s.timerActive then SyncToStore(s.(timerActive := false), fs, store, digest, outcome)
    else Push(s, None, None)
  }
}
