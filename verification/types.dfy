/** Shared vocabulary of the launcher model: bytes, optional values, and the
    exceptions the synchroniser can raise, turned into values. */
module Types {

  /** One octet of a Python 2 byte string. */
  type Byte = x: int | 0 <= x < 256

  type Bytes = seq<Byte>

  datatype Option<+T> = None | Some(value: T)

  /** The exceptions that escape the synchroniser's handlers, one per cause. */
  datatype Failure =
    | UnknownDocument     // lookup_doc raised: the store does not hold the document
    | NoRevisions         // revs[0] on an empty revision list (IndexError)
    | UnknownRevision     // stat / update raised for a revision the store does not hold
    | AnnotationUnbound   // `annotation` read while unbound (NameError)
    | NoPath              // open(None): the syncer has no local file yet
    | FileMissing         // open() of a path the filesystem does not hold (IOError)
    | MetaUnreadable      // readAll('META') raised while preparing a commit
    | CommitRejected      // the store refused the commit
    | UnregisteredPath    // pathToSyncer[oldPath] raised KeyError
    | BadHex              // str.decode("hex") raised TypeError
    | RevSyncerUnbound    // the name RevSyncer is not bound (NameError)
    | ProjectionFailed    // the one-shot revision projection raised

  datatype Result<+T> = Ok(value: T) | Err(failure: Failure)
}
