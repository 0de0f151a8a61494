/** The revision-to-path cache of SyncManager: once a revision has a path,
    every later request for it gets that path back without a new
    projection. Also the as-written getRevFile, which never gets as far as
    caching anything. */
module RevisionCache {
  import opened Types
  import opened DocSync
  import opened SyncManager

  /** A projected revision is answered from the cache from then on, whatever
      a fresh projection would have produced. */
  lemma CachedPathIsReturned(m: Manager, rev: RevId, path: string, later: Result<string>)
    requires rev !in m.revToPath
    ensures var first := GetRevFile(m, rev, Ok(path));
            && first.1 == Ok(path)
            && GetRevFile(first.0, rev, later) == (first.0, Ok(path))
  {
  }

  /** Shutting the syncers down keeps the revision cache. */
  lemma QuitKeepsRevisionPaths(m: Manager, rev: RevId)
    requires rev in m.revToPath
    ensures GetRevFile(Quit(m).0, rev, Err(ProjectionFailed)) == (Quit(m).0, Ok(m.revToPath[rev]))
  {
  }

  /** As written, a revision that is not cached always fails, so starting
      from an empty cache no revision request ever succeeds: the first
      `rev:00` request sent to a fresh server raises NameError. */
  lemma AsWrittenRevisionRequestFails(basePath: string, rev: RevId)
    ensures GetRevFileAsWritten(Init(basePath), rev) == Err(RevSyncerUnbound)
    ensures GetRevFile(Init(basePath), rev, Ok(basePath)).1 == Ok(basePath)
  {
  }
}
