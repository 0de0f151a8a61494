/** Properties of the DocSyncer handlers taken together: the cached FILE
    hash keeps describing the local file, a pull settles, an unchanged file
    never produces a revision, and the syncer's own write-back never turns
    into a push. */
module Convergence {
  import opened Types
  import opened DocSync

  /** The cached FILE hash is the digest of what the local file holds. */
  ghost predicate Synced(s: Syncer, fs: Fs, digest: Bytes -> Hash)
  {
    && s.path.Some? && s.path.value != [] && s.path.value in fs
    && s.fileHash == Some(digest(fs[s.path.value]))
  }

  /** The cached FILE hash is the FILE hash of the tracked revision. */
  ghost predicate TracksRevision(s: Syncer, store: Store)
  {
    s.rev.Some? && s.rev.value in store.revs && s.fileHash == Some(store.revs[s.rev.value].fileHash)
  }

  /** The store reports as FILE hash the same digest the syncer computes
      over local content. */
  ghost predicate Coherent(store: Store, digest: Bytes -> Hash)
  {
    forall r :: r in store.revs ==> store.revs[r].fileHash == digest(store.revs[r].file)
  }

  /** A pull that succeeded has nothing left to do: pulling again against
      the same store changes nothing. */
  lemma UpdateSettles(s: Syncer, fs: Fs, env: Env)
    ensures var r := Update(s, fs, env);
            r.failure.None? ==> Update(r.syncer, r.fs, env) == Step(r.syncer, r.fs, Quiet, None)
  {
    var r := Update(s, fs, env);
    if r.failure.None? {
      assert IsCurrent(r.syncer, env.store);
    }
  }

  /** Relocating a synced file keeps it synced: the path follows the file. */
  lemma RelocateKeepsSynced(s: Syncer, fs: Fs, newPath: string, renameOk: bool, digest: Bytes -> Hash)
    requires Synced(s, fs, digest) && newPath != []
    ensures Synced(Relocate(s, fs, newPath, renameOk).syncer, Relocate(s, fs, newPath, renameOk).fs, digest)
  {
    var r := Relocate(s, fs, newPath, renameOk);
    assert RenameAttempted(s.path, fs);
    if r.syncer.path != s.path {
      assert r.fs == MoveFile(fs, s.path.value, newPath);
    }
  }

  /** Convergence of a pull: from a synced state a successful pull leaves
      the syncer synced, and whenever it adopted a new revision the cached
      FILE hash is that revision's. */
  lemma UpdateKeepsSynced(s: Syncer, fs: Fs, env: Env, digest: Bytes -> Hash)
    requires Coherent(env.store, digest)
    requires Synced(s, fs, digest)
    requires Update(s, fs, env).failure.None?
    ensures Synced(Update(s, fs, env).syncer, Update(s, fs, env).fs, digest)
    ensures Update(s, fs, env).syncer.rev != s.rev ==> TracksRevision(Update(s, fs, env).syncer, env.store)
    ensures TracksRevision(s, env.store) ==> TracksRevision(Update(s, fs, env).syncer, env.store)
  {
    var store := env.store;
    if !IsCurrent(s, store) {
      var rev := store.heads[s.doc][0];
      var info := store.revs[rev];
      var s1 := s.(rev := Some(rev));
      var named :=
        if s.metaHash != Some(info.metaHash)
        then UpdateFileName(s1.(metaHash := Some(info.metaHash)), info, env.registry, fs, env.renameOk)
        else Step(s1, fs, Quiet, None);
      if s.metaHash != Some(info.metaHash) {
        var s2 := s1.(metaHash := Some(info.metaHash));
        var target := TargetPath(s2, info, env.registry);
        assert target.Ok?;
        RelocateKeepsSynced(s2, fs, target.value, env.renameOk, digest);
      }
      assert Synced(named.syncer, named.fs, digest);
      if s.fileHash != Some(info.fileHash) {
        assert store.revs[rev].fileHash == digest(store.revs[rev].file);
      }
    }
  }

  /** A new syncer for a document whose first current revision is held by
      the store with an annotated META part starts successfully: its file
      is created, synced with the adopted revision, and the syncer stays
      subscribed. */
  lemma StartSyncEstablishesSync(doc: DocId, basePath: string, fs: Fs, env: Env, digest: Bytes -> Hash)
    requires Coherent(env.store, digest)
    requires doc in env.store.heads && |env.store.heads[doc]| > 0
    requires env.store.heads[doc][0] in env.store.revs
    requires var meta := env.store.revs[env.store.heads[doc][0]].meta;
             meta.Some? && meta.value.annotation.Some?
    ensures var r := StartSync(NewSyncer(doc, basePath), fs, env);
            && r.failure.None?
            && Synced(r.syncer, r.fs, digest)
            && TracksRevision(r.syncer, env.store)
            && r.syncer.watching && !r.syncer.timerActive
  {
    var store := env.store;
    var s := NewSyncer(doc, basePath).(watching := true);
    var rev := store.heads[doc][0];
    var info := store.revs[rev];
    assert Adopts(s, store);
    var s2 := s.(rev := Some(rev), metaHash := Some(info.metaHash));
    var target := TargetPath(s2, info, env.registry);
    assert target.Ok?;
    var named := UpdateFileName(s2, info, env.registry, fs, env.renameOk);
    assert named.syncer.path == Some(target.value) && named.fs == fs;
    var s1 := s.(rev := Some(rev));
    assert RenameStep(s1, info, fs, env) == named;
    var u := Update(s, fs, env);
    assert u == Reconcile(s1, info, fs, env);
    assert u == SyncToFilesystem(named.syncer.(fileHash := Some(info.fileHash)), fs, info.file).(signal := named.signal);
    assert info.fileHash == digest(info.file);
  }

  /** A successful push leaves the syncer synced with the file it
      committed, and the committed FILE part is exactly the local file. */
  lemma PushKeepsSynced(s: Syncer, fs: Fs, store: Store, digest: Bytes -> Hash, outcome: Option<RevId>)
    requires s.path.Some? && s.path.value != []
    requires TimerFired(s, fs, store, digest, outcome).commit.Some?
    ensures var r := TimerFired(s, fs, store, digest, outcome);
            && Synced(r.syncer, fs, digest)
            && r.commit.value.file == fs[s.path.value]
            && r.syncer.rev == Some(r.commit.value.newRev)
  {
  }

  /** No-op stability: when the file still has the content last synced,
      the debounce timer firing commits nothing and changes no cached
      state. */
  lemma UnchangedFileCommitsNothing(s: Syncer, fs: Fs, store: Store, digest: Bytes -> Hash, outcome: Option<RevId>)
    requires Synced(s, fs, digest)
    ensures TimerFired(s, fs, store, digest, outcome) == Push(s.(timerActive := false), None, None)
  {
  }

  /** Loop freedom: the file a pull writes, even when the filesystem watch
      reports it and arms the debounce timer, is never pushed back as an
      external edit. */
  lemma PullIsNotPushedBack(s: Syncer, fs: Fs, env: Env, digest: Bytes -> Hash, outcome: Option<RevId>)
    requires Coherent(env.store, digest)
    requires Synced(s, fs, digest)
    requires Update(s, fs, env).failure.None?
    ensures var r := Update(s, fs, env);
            TimerFired(FileModified(r.syncer), r.fs, env.store, digest, outcome).commit.None?
  {
    var r := Update(s, fs, env);
    UpdateKeepsSynced(s, fs, env, digest);
    UnchangedFileCommitsNothing(FileModified(r.syncer), r.fs, env.store, digest, outcome);
  }

  /** Debouncing: a burst of modification reports arms the timer once,
      exactly as a single report does. */
  lemma BurstArmsOnce(s: Syncer)
    ensures FileModified(FileModified(s)) == FileModified(s)
  {
  }

  /** The unbound-annotation defect, as the source has it: a pull that
      adopts a revision with a new META hash but no annotation record
      raises before touching the file, yet has already cached the new
      revision and META hash, so the FILE part of that revision is not
      written by this pull, nor by the next one. */
  lemma MissingAnnotationStopsPull(s: Syncer, fs: Fs, env: Env)
    requires Adopts(s, env.store)
    requires var info := env.store.revs[env.store.heads[s.doc][0]];
             && s.metaHash != Some(info.metaHash)
             && (info.meta.None? || info.meta.value.annotation.None?)
    ensures var r := Update(s, fs, env);
            && r.failure == Some(AnnotationUnbound)
            && r.fs == fs && r.syncer.path == s.path && r.syncer.fileHash == s.fileHash
            && r.syncer.rev == Some(env.store.heads[s.doc][0])
            && Update(r.syncer, r.fs, env) == Step(r.syncer, fs, Quiet, None)
  {
    var info := env.store.revs[env.store.heads[s.doc][0]];
    var s1 := s.(rev := Some(env.store.heads[s.doc][0]), metaHash := Some(info.metaHash));
    assert TargetPath(s1, info, env.registry).Err?;
  }
}
