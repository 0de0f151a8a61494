/** SyncManager: the registry of live document syncers, keyed by document
    and by current local path, plus the permanent revision-to-path cache.
    A syncer is identified by its document: pathToSyncer maps a path to
    the document whose syncer owns it, docToSyncer holds that syncer. */
module SyncManager {
  import opened Types
  import opened DocSync

  datatype Manager = Manager(basePath: string,
                             pathToSyncer: map<string, DocId>,
                             docToSyncer: map<DocId, Syncer>,
                             revToPath: map<RevId, string>)

  /** Every path entry refers to a live syncer. */
  ghost predicate Resolves(m: Manager)
  {
    forall p :: p in m.pathToSyncer ==> m.pathToSyncer[p] in m.docToSyncer
  }

  /** The registry invariant: each live syncer is subscribed, belongs to
      its key, lives under the manager's base directory and has a file; each
      path entry is that syncer's current path. */
  ghost predicate Valid(m: Manager)
  {
    && Resolves(m)
    && (forall d :: d in m.docToSyncer ==>
          var s := m.docToSyncer[d];
          s.doc == d && s.basePath == m.basePath && s.watching && s.path.Some?)
    && (forall p :: p in m.pathToSyncer ==> m.docToSyncer[m.pathToSyncer[p]].path == Some(p))
  }

  /** What a request for a document or revision yields: the manager and
      filesystem afterwards and the path to open, or the failure. */
  datatype Lookup = Lookup(manager: Manager, fs: Fs, path: Result<string>)

  function Init(basePath: string): (m: Manager)
    ensures m.basePath == basePath
    ensures m.pathToSyncer == map[] && m.docToSyncer == map[] && m.revToPath == map[]
  {
    Manager(basePath, map[], map[], map[])
  }

  /** getDocFile: the path of the document's live syncer if there is one;
      otherwise a new syncer is started and, only if it starts, registered
      under its document and its path. */
  function GetDocFile(m: Manager, doc: DocId, fs: Fs, env: Env): (r: Lookup)
    ensures doc in m.docToSyncer && m.docToSyncer[doc].path.Some? ==>
              r == Lookup(m, fs, Ok(m.docToSyncer[doc].path.value))
    ensures doc in m.docToSyncer ==> r.manager == m && r.fs == fs
    ensures r.path.Err? ==> r.manager == m
    ensures doc !in m.docToSyncer && r.path.Ok? ==>
              && r.manager.basePath == m.basePath
              && r.manager.revToPath == m.revToPath
              && doc in r.manager.docToSyncer
              && r.manager.docToSyncer == m.docToSyncer[doc := r.manager.docToSyncer[doc]]
              && r.manager.pathToSyncer == m.pathToSyncer[r.path.value := doc]
              && r.manager.docToSyncer[doc].path == Some(r.path.value)
              && r.manager.docToSyncer[doc].watching
              && r.manager.docToSyncer[doc] == StartSync(NewSyncer(doc, m.basePath), fs, env).syncer
    ensures doc !in m.docToSyncer ==>
              var started := StartSync(NewSyncer(doc, m.basePath), fs, env);
              && r.fs == started.fs
              && (r.path.Err? <==> started.failure.Some?)
  {
    if doc in m.docToSyncer then
      match m.docToSyncer[doc].path
      case None => Lookup(m, fs, Err(NoPath))
      case Some(p) => Lookup(m, fs, Ok(p))
    else
      var started := StartSync(NewSyncer(doc, m.basePath), fs, env);
      if started.failure.Some? then Lookup(m, started.fs, Err(started.failure.value))
      else match started.syncer.path
        case None => Lookup(m, started.fs, Err(NoPath))
        case Some(p) =>
          Lookup(m.(docToSyncer := m.docToSyncer[doc := started.syncer],
                    pathToSyncer := m.pathToSyncer[p := doc]),
                 started.fs, Ok(p))
  }

  /** getRevFile as written: a cached revision returns its path; for any
      other revision the source constructs `RevSyncer`, a name bound
      nowhere in its module, and raises NameError before caching. */
  function GetRevFileAsWritten(m: Manager, rev: RevId): (r: Result<string>)
    ensures rev in m.revToPath <==> r.Ok?
    ensures rev in m.revToPath ==> r.value == m.revToPath[rev]
  {
    if rev in m.revToPath then Ok(m.revToPath[rev]) else Err(RevSyncerUnbound)
  }

  /** getRevFile as intended: `projection` is the path the one-shot
      revision projection yields (or its failure). A cached revision returns
      its path without projecting again; a new one is projected and, on
      success, cached for good. */
  function GetRevFile(m: Manager, rev: RevId, projection: Result<string>): (r: (Manager, Result<string>))
    ensures r.0.basePath == m.basePath && r.0.pathToSyncer == m.pathToSyncer && r.0.docToSyncer == m.docToSyncer
    ensures rev in m.revToPath ==> r == (m, Ok(m.revToPath[rev]))
    ensures rev !in m.revToPath ==> r.1 == projection
    ensures rev !in m.revToPath && projection.Ok? ==> r.0.revToPath == m.revToPath[rev := projection.value]
    ensures projection.Err? ==> r.0 == m
  {
    if rev in m.revToPath then (m, Ok(m.revToPath[rev]))
    else match projection
      case Err(f) => (m, Err(f))
      case Ok(p) => (m.(revToPath := m.revToPath[rev := p]), Ok(p))
  }

  /** quit: every live syncer is stopped and both syncer maps are emptied;
      the revision cache survives. The stopped syncers are returned. */
  function Quit(m: Manager): (r: (Manager, map<DocId, Syncer>))
    ensures r.0 == m.(pathToSyncer := map[], docToSyncer := map[])
    ensures r.1.Keys == m.docToSyncer.Keys
    ensures forall d :: d in r.1 ==> !r.1[d].watching && !r.1[d].timerActive
    ensures forall d :: d in r.1 ==> r.1[d].path == m.docToSyncer[d].path
  {
    (m.(pathToSyncer := map[], docToSyncer := map[]),
     map d | d in m.docToSyncer :: StopSync(m.docToSyncer[d]))
  }

  /** __pathChanged: the syncer registered under `oldPath` is re-keyed to
      its current path; KeyError when no syncer is registered there. */
  function PathChanged(m: Manager, oldPath: string): (r: Result<Manager>)
    requires Resolves(m)
    ensures oldPath !in m.pathToSyncer <==> r.Err?
    ensures r.Err? ==> r.failure == UnregisteredPath
    ensures r.Ok? ==> r.value.docToSyncer == m.docToSyncer && r.value.revToPath == m.revToPath
                      && r.value.basePath == m.basePath
    ensures r.Ok? && m.docToSyncer[m.pathToSyncer[oldPath]].path.Some? ==>
              var newPath := m.docToSyncer[m.pathToSyncer[oldPath]].path.value;
              && newPath in r.value.pathToSyncer
              && r.value.pathToSyncer[newPath] == m.pathToSyncer[oldPath]
              && (oldPath != newPath ==> oldPath !in r.value.pathToSyncer)
              && forall p :: p != oldPath && p != newPath ==>
                   (p in r.value.pathToSyncer <==> p in m.pathToSyncer)
                   && (p in m.pathToSyncer ==> r.value.pathToSyncer[p] == m.pathToSyncer[p])
  {
    if oldPath !in m.pathToSyncer then Err(UnregisteredPath)
    else
      var doc := m.pathToSyncer[oldPath];
      match m.docToSyncer[doc].path
      case None => Ok(m.(pathToSyncer := m.pathToSyncer - {oldPath}))
      case Some(newPath) => Ok(m.(pathToSyncer := (m.pathToSyncer - {oldPath})[newPath := doc]))
  }

  /** __fileChanged: an unregistered path is ignored; a file that still
      exists arms its syncer's debounce timer; a file that is gone stops
      its syncer and drops both of its entries. */
  function FileChanged(m: Manager, path: string, fs: Fs): (r: Manager)
    requires Resolves(m)
    ensures path !in m.pathToSyncer ==> r == m
    ensures r.basePath == m.basePath && r.revToPath == m.revToPath
    ensures path in m.pathToSyncer && path in fs ==>
              var doc := m.pathToSyncer[path];
              && r.pathToSyncer == m.pathToSyncer
              && r.docToSyncer == m.docToSyncer[doc := FileModified(m.docToSyncer[doc])]
    ensures path in m.pathToSyncer && path !in fs ==>
              var doc := m.docToSyncer[m.pathToSyncer[path]].doc;
              && r.pathToSyncer == m.pathToSyncer - {path}
              && r.docToSyncer == m.docToSyncer - {doc}
  {
    if path !in m.pathToSyncer then m
    else
      var doc := m.pathToSyncer[path];
      var syncer := m.docToSyncer[doc];
      if path in fs then m.(docToSyncer := m.docToSyncer[doc := FileModified(syncer)])
      else m.(pathToSyncer := m.pathToSyncer - {path}, docToSyncer := m.docToSyncer - {syncer.doc})
  }

  /** Installs the outcome of a pull by the syncer of `doc`: the syncer is
      replaced and, when it signalled a move, __pathChanged re-keys the
      path it signalled. */
  function ApplyPull(m: Manager, doc: DocId, step: Step): (r: (Manager, Fs, Option<Failure>))
    requires Resolves(m) && doc in m.docToSyncer
    ensures r.0.basePath == m.basePath && r.0.revToPath == m.revToPath
    ensures r.0.docToSyncer == m.docToSyncer[doc := step.syncer]
    ensures r.1 == step.fs
    ensures step.signal.Quiet? ==> r == (m.(docToSyncer := r.0.docToSyncer), step.fs, step.failure)
    ensures step.signal.FileNameChanged? ==>
              var prev := step.signal.oldPath;
              && (prev.None? || prev.value !in m.pathToSyncer ==>
                    r.0.pathToSyncer == m.pathToSyncer && r.2 == Some(UnregisteredPath))
              && (prev.Some? && prev.value in m.pathToSyncer && m.pathToSyncer[prev.value] == doc
                  && step.syncer.path.Some? ==>
                    r.0.pathToSyncer == (m.pathToSyncer - {prev.value})[step.syncer.path.value := doc]
                    && r.2 == step.failure)
              && (prev.Some? && prev.value in m.pathToSyncer ==>
                    var owner := m.pathToSyncer[prev.value];
                    var moved := r.0.docToSyncer[owner].path;
                    && r.2 == step.failure
                    && (moved.Some? ==> r.0.pathToSyncer == (m.pathToSyncer - {prev.value})[moved.value := owner])
                    && (moved.None? ==> r.0.pathToSyncer == m.pathToSyncer - {prev.value}))
  {
    var m1 := m.(docToSyncer := m.docToSyncer[doc := step.syncer]);
    match step.signal
    case Quiet => (m1, step.fs, step.failure)
    case FileNameChanged(prev) =>
      if prev.None? then (m1, step.fs, Some(UnregisteredPath))
      else match PathChanged(m1, prev.value)
        case Err(f) => (m1, step.fs, Some(f))
        case Ok(m2) => (m2, step.fs, step.failure)
  }

  /** A store notification for a document: its live syncer handles it and,
      when the file moved, the manager re-keys the path. */
  function StoreNotified(m: Manager, doc: DocId, event: DocEvent, fs: Fs, env: Env): (r: (Manager, Fs, Option<Failure>))
    requires Resolves(m)
    ensures doc !in m.docToSyncer ==> r == (m, fs, None)
    ensures doc in m.docToSyncer ==> r == ApplyPull(m, doc, Triggered(m.docToSyncer[doc], event, fs, env))
  {
    if doc !in m.docToSyncer then (m, fs, None)
    else ApplyPull(m, doc, Triggered(m.docToSyncer[doc], event, fs, env))
  }

  /** The debounce timer of a document's syncer firing: the syncer pushes
      and is replaced by its successor; the registry keys stay put. */
  function TimerElapsed(m: Manager, doc: DocId, fs: Fs, store: Store, digest: Bytes -> Hash,
                        outcome: Option<RevId>): (r: (Manager, Option<Commit>, Option<Failure>))
    ensures doc !in m.docToSyncer ==> r == (m, None, None)
    ensures r.0.pathToSyncer == m.pathToSyncer && r.0.revToPath == m.revToPath && r.0.basePath == m.basePath
    ensures r.0.docToSyncer.Keys == m.docToSyncer.Keys
    ensures doc in m.docToSyncer ==> r.0.docToSyncer[doc].path == m.docToSyncer[doc].path
    ensures doc in m.docToSyncer ==>
              var push := TimerFired(m.docToSyncer[doc], fs, store, digest, outcome);
              && r.0.docToSyncer == m.docToSyncer[doc := push.syncer]
              && r.1 == push.commit && r.2 == push.failure
  {
    if doc !in m.docToSyncer then (m, None, None)
    else
      var push := TimerFired(m.docToSyncer[doc], fs, store, digest, outcome);
      (m.(docToSyncer := m.docToSyncer[doc := push.syncer]), push.commit, push.failure)
  }
}
