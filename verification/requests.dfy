/** The request broker's dispatch (RequestManager.__process) and the
    command-line validation run before any connection is attempted. */
module Requests {
  import opened Types
  import Hex
  import opened DocSync
  import opened SyncManager

  const DocPrefix: string := "doc:"
  const RevPrefix: string := "rev:"
  const KillRequest: string := "kill"
  const UsageExitStatus: int := 1

  predicate StartsWith(s: string, prefix: string)
  {
    |prefix| <= |s| && s[..|prefix|] == prefix
  }

  /** What a request line asks for. */
  datatype Request =
    | OpenDoc(doc: DocId)
    | OpenRev(rev: RevId)
    | Kill
    | Ignored
    | Undecodable     // a doc:/rev: request whose id is not valid hex

  /** __process's dispatch: the prefixes are tried in order, the remainder
      is hex-decoded; "kill" must match exactly; anything else is dropped. */
  function Classify(request: string): (r: Request)
    ensures StartsWith(request, DocPrefix) ==>
              (match Hex.Decode(request[4..]) case Some(d) => r == OpenDoc(d) case None => r == Undecodable)
    ensures !StartsWith(request, DocPrefix) && StartsWith(request, RevPrefix) ==>
              (match Hex.Decode(request[4..]) case Some(d) => r == OpenRev(d) case None => r == Undecodable)
    ensures r == Kill <==> request == KillRequest
    ensures r == Ignored <==>
              !StartsWith(request, DocPrefix) && !StartsWith(request, RevPrefix) && request != KillRequest
  {
    if StartsWith(request, DocPrefix) then
      assert request[0] == DocPrefix[0] != KillRequest[0];
      match Hex.Decode(request[4..])
      case Some(d) => OpenDoc(d)
      case None => Undecodable
    else if StartsWith(request, RevPrefix) then
      assert request[0] == RevPrefix[0] != KillRequest[0];
      match Hex.Decode(request[4..])
      case Some(d) => OpenRev(d)
      case None => Undecodable
    else if request == KillRequest then Kill
    else Ignored
  }

  /** The request line a client sends for a document id. */
  function DocRequest(doc: DocId): string
  {
    DocPrefix + Hex.Encode(doc)
  }

  /** A request built from a document id is classified back to that id. */
  lemma DocRequestRoundTrip(doc: DocId)
    ensures Classify(DocRequest(doc)) == OpenDoc(doc)
  {
    var req := DocRequest(doc);
    assert StartsWith(req, DocPrefix);
    assert req[4..] == Hex.Encode(doc);
    Hex.DecodeEncode(doc);
  }

  /** How the program starts, decided from the arguments after the program
      name. */
  datatype Invocation = Serve | Send(request: string) | Usage

  /** The argument check: at most one argument, and it must carry a doc: or
      rev: prefix or be exactly "kill"; otherwise usage and exit status 1. */
  function ParseArgs(args: seq<string>): (r: Invocation)
    ensures |args| == 0 <==> r == Serve
    ensures r.Send? ==> |args| == 1 && r.request == args[0]
  {
    if |args| > 1 then Usage
    else if |args| == 1 && !(StartsWith(args[0], DocPrefix) || StartsWith(args[0], RevPrefix) || args[0] == KillRequest)
    then Usage
    else if |args| == 1 then Send(args[0])
    else Serve
  }

  /** The program's exit on start-up: status 1 after printing usage, or
      None when it goes on to serve or send its request. */
  function StartupExit(args: seq<string>): (code: Option<int>)
    ensures code.Some? <==> |args| > 1 || (|args| == 1 && Classify(args[0]) == Ignored)
    ensures code.Some? ==> code.value == UsageExitStatus
  {
    if ParseArgs(args).Usage? then Some(UsageExitStatus) else None
  }

  /** The command line accepts exactly the single requests the server does
      not ignore. */
  lemma AcceptedExactlyWhenServed(args: seq<string>)
    ensures ParseArgs(args).Send? <==> |args| == 1 && Classify(args[0]) != Ignored
    ensures ParseArgs(args) == Usage <==> |args| > 1 || (|args| == 1 && Classify(args[0]) == Ignored)
  {
  }

  /** What the broker does with a request once it has been processed. */
  datatype Action = OpenPath(path: string) | Finish | NoAction | Failed(failure: Failure)

  /** The collaborators a request may consult. `projection` is what the
      revision projection would yield for a new revision. */
  datatype Context = Context(fs: Fs, env: Env, projection: Result<string>)

  /** The broker's reaction to a resolved path: open it, or report why
      there is none. */
  function Respond(path: Result<string>): (a: Action)
    ensures a.OpenPath? <==> path.Ok?
    ensures path.Ok? ==> a.path == path.value
    ensures path.Err? ==> a == Failed(path.failure)
  {
    match path
    case Ok(p) => OpenPath(p)
    case Err(f) => Failed(f)
  }

  /** __process against the server's SyncManager: doc: and rev: requests
      resolve a path to open; kill shuts the manager down; anything else
      is ignored. */
  function Process(m: Manager, request: string, ctx: Context): (r: (Manager, Fs, Action))
    ensures Classify(request) == Ignored ==> r == (m, ctx.fs, NoAction)
    ensures Classify(request) == Undecodable ==> r == (m, ctx.fs, Failed(BadHex))
    ensures Classify(request) == Kill ==> r == (Quit(m).0, ctx.fs, Finish)
    ensures Classify(request).OpenDoc? ==>
              var lookup := GetDocFile(m, Classify(request).doc, ctx.fs, ctx.env);
              r == (lookup.manager, lookup.fs, Respond(lookup.path))
    ensures Classify(request).OpenRev? ==>
              var got := GetRevFile(m, Classify(request).rev, ctx.projection);
              r == (got.0, ctx.fs, Respond(got.1))
  {
    match Classify(request)
    case OpenDoc(doc) =>
      var lookup := GetDocFile(m, doc, ctx.fs, ctx.env);
      (lookup.manager, lookup.fs, Respond(lookup.path))
    case OpenRev(rev) =>
      var got := GetRevFile(m, rev, ctx.projection);
      (got.0, ctx.fs, Respond(got.1))
    case Kill => (Quit(m).0, ctx.fs, Finish)
    case Ignored => (m, ctx.fs, NoAction)
    case Undecodable => (m, ctx.fs, Failed(BadHex))
  }
}
