/** The SyncManager registry invariant is established by construction and
    kept by every operation; under it no two paths are registered for the
    same document. */
module RegistryInvariant {
  import opened Types
  import opened DocSync
  import opened SyncManager

  lemma InitValid(basePath: string)
    ensures Valid(Init(basePath))
  {
  }

  /** Under the invariant each document owns at most one registered path. */
  lemma OnePathPerDocument(m: Manager, p: string, q: string)
    requires Valid(m)
    requires p in m.pathToSyncer && q in m.pathToSyncer
    requires m.pathToSyncer[p] == m.pathToSyncer[q]
    ensures p == q
  {
    assert m.docToSyncer[m.pathToSyncer[p]].path == Some(p);
  }

  lemma GetDocFileKeepsValid(m: Manager, doc: DocId, fs: Fs, env: Env)
    requires Valid(m)
    ensures Valid(GetDocFile(m, doc, fs, env).manager)
  {
    var r := GetDocFile(m, doc, fs, env);
    if doc !in m.docToSyncer && r.path.Ok? {
      var s := r.manager.docToSyncer[doc];
      var u := Update(NewSyncer(doc, m.basePath).(watching := true), fs, env);
      assert s.doc == u.syncer.doc == doc;
      assert s.basePath == m.basePath;
      forall p | p in r.manager.pathToSyncer
        ensures r.manager.docToSyncer[r.manager.pathToSyncer[p]].path == Some(p)
      {
        if p != r.path.value {
          assert m.pathToSyncer[p] in m.docToSyncer;
        }
      }
    }
  }

  lemma GetRevFileKeepsValid(m: Manager, rev: RevId, projection: Result<string>)
    requires Valid(m)
    ensures Valid(GetRevFile(m, rev, projection).0)
  {
  }

  lemma QuitKeepsValid(m: Manager)
    requires Valid(m)
    ensures Valid(Quit(m).0)
  {
  }

  /** A vanished file takes its syncer's only path entry with it, so no
      entry is left pointing at the dropped syncer. */
  lemma FileChangedKeepsValid(m: Manager, path: string, fs: Fs)
    requires Valid(m)
    ensures Valid(FileChanged(m, path, fs))
  {
    var r := FileChanged(m, path, fs);
    if path in m.pathToSyncer && path !in fs {
      var doc := m.pathToSyncer[path];
      forall p | p in r.pathToSyncer
        ensures r.pathToSyncer[p] in r.docToSyncer
      {
        if m.pathToSyncer[p] == doc {
          OnePathPerDocument(m, p, path);
        }
      }
    }
  }

  lemma TimerElapsedKeepsValid(m: Manager, doc: DocId, fs: Fs, store: Store, digest: Bytes -> Hash,
                               outcome: Option<RevId>)
    requires Valid(m)
    ensures Valid(TimerElapsed(m, doc, fs, store, digest, outcome).0)
  {
    if doc in m.docToSyncer {
      var s := m.docToSyncer[doc];
      var push := TimerFired(s, fs, store, digest, outcome);
      assert push.syncer == s.(timerActive := false, rev := push.syncer.rev, fileHash := push.syncer.fileHash);
      assert TimerElapsed(m, doc, fs, store, digest, outcome).0 == m.(docToSyncer := m.docToSyncer[doc := push.syncer]);
    }
  }

  /** A pull that moves the file re-keys the one entry of its syncer, so
      the registry follows renames. */
  lemma ApplyPullKeepsValid(m: Manager, doc: DocId, step: Step)
    requires Valid(m) && doc in m.docToSyncer
    requires var s := m.docToSyncer[doc];
             && step.syncer.doc == doc && step.syncer.basePath == s.basePath && step.syncer.watching
             && (step.signal.Quiet? ==> step.syncer.path == s.path)
             && (step.signal.FileNameChanged? ==> step.signal.oldPath == s.path && step.syncer.path.Some?)
    ensures Valid(ApplyPull(m, doc, step).0)
  {
    var s := m.docToSyncer[doc];
    var m1 := m.(docToSyncer := m.docToSyncer[doc := step.syncer]);
    assert Resolves(m1);
    // every entry naming `doc` sits at its old path
    forall p | p in m.pathToSyncer && m.pathToSyncer[p] == doc
      ensures s.path == Some(p)
    {
    }
    match step.signal
    case Quiet =>
      assert Valid(m1);
    case FileNameChanged(prev) =>
      var oldPath := prev.value;
      if oldPath in m1.pathToSyncer {
        var owner := m1.pathToSyncer[oldPath];
        var m2 := PathChanged(m1, oldPath).value;
        if owner == doc {
          var newPath := step.syncer.path.value;
          forall p | p in m2.pathToSyncer
            ensures m2.docToSyncer[m2.pathToSyncer[p]].path == Some(p)
          {
            if p != newPath {
              assert p != oldPath && m.pathToSyncer[p] != doc;
            }
          }
        } else {
          assert m1.docToSyncer[owner].path == Some(oldPath);
          assert m2.pathToSyncer == m1.pathToSyncer;
          forall p | p in m1.pathToSyncer
            ensures m1.pathToSyncer[p] != doc
          {
          }
        }
      } else {
        forall p | p in m1.pathToSyncer
          ensures m1.pathToSyncer[p] != doc
        {
        }
      }
  }

  lemma StoreNotifiedKeepsValid(m: Manager, doc: DocId, event: DocEvent, fs: Fs, env: Env)
    requires Valid(m)
    ensures Valid(StoreNotified(m, doc, event, fs, env).0)
  {
    if doc in m.docToSyncer {
      ApplyPullKeepsValid(m, doc, Triggered(m.docToSyncer[doc], event, fs, env));
    }
  }
}
