/**
 * One run of pkg/evaluate/evaluate.go's `ExecuteHandler`: read a request,
 * stage its files in a fresh temporary directory, resolve the interpreter
 * through the cache, start it on a pseudo-terminal, stream its output and
 * send exactly one `exit` message.
 *
 * Everything the handler learns from the outside arrives as a `World`:
 * the first websocket frame, what the filesystem calls return, what the
 * download does, what the pty reads return and which case of the final
 * `select` fires. The messages the handler writes are returned in order.
 */
module Evaluate {
  import opened Wrappers
  import FilePath
  import Download

  /** Size of the reader's buffer (`make([]byte, 4096)`). */
  const BufferSize := 4096

  /** Exit code the handler reports when it could not run the program. */
  const FailureCode := -1

  /** `websocket.TextMessage`. */
  const TextMessage := 1

  newtype byte = x: int | 0 <= x < 256

  /** What one `ptmx.Read(buffer)` can deliver: at most the buffer's size. */
  type Chunk = s: seq<byte> | |s| <= BufferSize

  /** `Request`, as decoded from the first message. */
  datatype Request = Request(version: string, code: string, files: map<string, string>, timeout: int)

  /** How the connection starts: the websocket upgrade fails, reading the
    * first frame fails, or a frame of some type arrives whose payload did or
    * did not decode as a `Request`. */
  datatype Inbound =
    | UpgradeFailed(reason: string)
    | ReadFailed(reason: string)
    | Frame(messageType: int, decoded: Option<Request>)

  /** A `StreamResponse`: an `output` chunk or the `exit` record
    * (`ExitData`, whose `msg` is "" unless an error is reported). */
  datatype Message = Output(data: seq<byte>) | Exit(exitCode: int, msg: string)

  /** One `ptmx.Read`: the bytes it filled and whether it also returned an error. */
  datatype Read = Read(data: Chunk, failed: bool)

  /** The failures `os.MkdirAll` and `os.WriteFile` report, by path. */
  datatype StagingIo = StagingIo(mkdirErrors: map<string, string>, writeErrors: map<string, string>)

  /** Which case of the final `select` fires: `cmd.Wait` returning (with
    * its error, if any) or the deadline, with the exit code the killed
    * process's state reports. */
  datatype RunEnd = WaitReturned(err: Option<string>) | DeadlinePassed(exitCode: int)

  /** What the handler is told by the outside world. */
  datatype World = World(
    tempDir: Result<string, string>,
    staging: StagingIo,
    existing: set<string>,
    fetch: Download.Fetch,
    ptyStart: Option<string>,
    ptyReads: seq<Read>,
    end: RunEnd)

  /** A started process: its argument list, working directory and deadline. */
  datatype Launch = Launch(argv: seq<string>, dir: string, timeoutMillis: int)

  /** What the handler does after staging: the messages it sends, the
    * process it starts and whether it kills it. */
  datatype Report = Report(sent: seq<Message>, launch: Option<Launch>, killed: bool)

  /** The handler goes past its first read only for a text frame that decodes. */
  predicate Accepted(inbound: Inbound)
  {
    inbound.Frame? && inbound.messageType == TextMessage && inbound.decoded.Some?
  }

  /** The protocol once a request has parsed: exactly one `exit`, after every `output`. */
  predicate OneExitLast(sent: seq<Message>)
  {
    |sent| >= 1 && sent[|sent| - 1].Exit? && forall i :: 0 <= i < |sent| - 1 ==> sent[i].Output?
  }

  /** Every `output` carries a non-empty chunk of at most one buffer. */
  predicate ChunksBounded(sent: seq<Message>)
  {
    forall i :: 0 <= i < |sent| && sent[i].Output? ==> 0 < |sent[i].data| <= BufferSize
  }

  // ---------------------------------------------------------------------
  // The timeout

  /** The deadline the process gets: the requested timeout, unless it is
    * negative or above the maximum. */
  function EffectiveTimeout(requested: int, maxTimeout: int): (t: int)
    ensures requested < 0 || requested > maxTimeout ==> t == maxTimeout
    ensures 0 <= requested <= maxTimeout ==> t == requested
    ensures maxTimeout >= 0 ==> 0 <= t <= maxTimeout
  {
    if requested < 0 || requested > maxTimeout then maxTimeout else requested
  }

  /** Clamping a clamped timeout changes nothing. */
  lemma EffectiveTimeoutIdempotent(requested: int, maxTimeout: int)
    ensures EffectiveTimeout(EffectiveTimeout(requested, maxTimeout), maxTimeout) == EffectiveTimeout(requested, maxTimeout)
  {
  }

  // ---------------------------------------------------------------------
  // Staging the request's files

  /** Why staging `name` fails, if it does: the traversal check on the
    * joined path, then creating its directory, then writing it. */
  function StageError(tempDir: string, name: string, io: StagingIo): (r: Option<string>)
    ensures var p := FilePath.Join([tempDir, name]);
            r.None? <==> FilePath.HasPrefix(p, tempDir) && FilePath.Dir(p) !in io.mkdirErrors && p !in io.writeErrors
    ensures !FilePath.HasPrefix(FilePath.Join([tempDir, name]), tempDir) ==>
              r == Some("Invalid file path (traversal attempt): " + name)
  {
    var filePath := FilePath.Join([tempDir, name]);
    var dir := FilePath.Dir(filePath);
    if !FilePath.HasPrefix(filePath, tempDir) then Some("Invalid file path (traversal attempt): " + name)
    else if dir in io.mkdirErrors then Some("Failed to create dir for file: " + io.mkdirErrors[dir])
    else if filePath in io.writeErrors then Some("Failed to write file: " + io.writeErrors[filePath])
    else None
  }

  predicate AllStageable(tempDir: string, files: map<string, string>, io: StagingIo)
  {
    forall n :: n in files ==> StageError(tempDir, n, io).None?
  }

  /** The loop over `req.Files`, in an order it does not choose: every file
    * it writes passed the prefix check and holds the content of a name that
    * joins to it; it either writes every file or stops with the error of
    * one that failed. */
  method StageFiles(tempDir: string, files: map<string, string>, io: StagingIo)
    returns (written: map<string, string>, err: Option<string>)
    ensures forall p :: p in written ==> FilePath.HasPrefix(p, tempDir)
    ensures forall p :: p in written ==>
              exists n :: n in files && StageError(tempDir, n, io).None? &&
                          FilePath.Join([tempDir, n]) == p && written[p] == files[n]
    ensures err.None? <==> AllStageable(tempDir, files, io)
    ensures err.None? ==> forall n :: n in files ==> FilePath.Join([tempDir, n]) in written
    ensures err.Some? ==> exists n :: n in files && StageError(tempDir, n, io) == err
  {
    written := map[];
    var remaining := files.Keys;
    while remaining != {}
      invariant remaining <= files.Keys
      invariant forall n :: n in files && n !in remaining ==>
                  StageError(tempDir, n, io).None? && FilePath.Join([tempDir, n]) in written
      invariant forall p :: p in written ==>
                  exists n :: n in files && StageError(tempDir, n, io).None? &&
                              FilePath.Join([tempDir, n]) == p && written[p] == files[n]
      decreases remaining
    {
      var name :| name in remaining;
      var filePath := FilePath.Join([tempDir, name]);
      if !FilePath.HasPrefix(filePath, tempDir) {
        return written, Some("Invalid file path (traversal attempt): " + name);
      }
      var dir := FilePath.Dir(filePath);
      if dir in io.mkdirErrors {
        return written, Some("Failed to create dir for file: " + io.mkdirErrors[dir]);
      }
      if filePath in io.writeErrors {
        return written, Some("Failed to write file: " + io.writeErrors[filePath]);
      }
      written := written[filePath := files[name]];
      remaining := remaining - {name};
    }
    return written, None;
  }

  // ---------------------------------------------------------------------
  // Streaming the output

  /** The messages the reader sends for a sequence of reads: every non-empty
    * read is forwarded, and the first read with an error is the last one. */
  function Forwarded(trace: seq<Read>): (r: seq<Message>)
    ensures |r| <= |Consumed(trace)| <= |trace|
  {
    if trace == [] then []
    else
      Sent(trace[0]) + (if trace[0].failed then [] else Forwarded(trace[1..]))
  }

  /** The reads the reader performs: up to and including the first that fails. */
  function Consumed(trace: seq<Read>): seq<Read>
  {
    if trace == [] then []
    else if trace[0].failed then [trace[0]]
    else [trace[0]] + Consumed(trace[1..])
  }

  function Bytes(trace: seq<Read>): seq<byte>
  {
    if trace == [] then [] else trace[0].data + Bytes(trace[1..])
  }

  function Payload(sent: seq<Message>): seq<byte>
  {
    if sent == [] then [] else (if sent[0].Output? then sent[0].data else []) + Payload(sent[1..])
  }

  /** The reader goroutine's loop. */
  method Drain(trace: seq<Read>) returns (out: seq<Message>)
    ensures out == Forwarded(trace)
  {
    out := [];
    var k := 0;
    while k < |trace|
      invariant 0 <= k <= |trace|
      invariant out + Forwarded(trace[k..]) == Forwarded(trace)
    {
      var r := trace[k];
      ForwardedStep(trace, k, out);
      ghost var before := out;
      if |r.data| > 0 {
        out := out + [Output(r.data)];
      }
      assert out == before + Sent(r);
      if r.failed {
        return;
      }
      k := k + 1;
    }
  }

  /** The messages one read produces. */
  function Sent(r: Read): seq<Message>
  {
    if |r.data| > 0 then [Output(r.data)] else []
  }

  /** One turn of the reader's loop keeps what is sent plus what is left
    * to send equal to everything it will have sent. */
  lemma ForwardedStep(trace: seq<Read>, k: nat, before: seq<Message>)
    requires k < |trace| && before + Forwarded(trace[k..]) == Forwarded(trace)
    ensures trace[k].failed ==> before + Sent(trace[k]) == Forwarded(trace)
    ensures !trace[k].failed ==> (before + Sent(trace[k])) + Forwarded(trace[k + 1..]) == Forwarded(trace)
  {
    var rest := trace[k..];
    assert rest[0] == trace[k];
    assert rest[1..] == trace[k + 1..];
    assert Forwarded(rest) == Sent(trace[k]) + (if trace[k].failed then [] else Forwarded(trace[k + 1..]));
    if !trace[k].failed {
      var f := Forwarded(trace[k + 1..]);
      assert (before + Sent(trace[k])) + f == before + (Sent(trace[k]) + f);
    } else {
      assert Sent(trace[k]) + [] == Sent(trace[k]);
    }
  }

  lemma PayloadConcat(a: seq<Message>, b: seq<Message>)
    ensures Payload(a + b) == Payload(a) + Payload(b)
  {
    if a == [] {
      assert a + b == b;
    } else {
      assert (a + b)[1..] == a[1..] + b;
      PayloadConcat(a[1..], b);
    }
  }

  /** The reader sends only `output` messages, each with a non-empty chunk
    * of at most one buffer. */
  lemma {:induction false} ForwardedChunks(trace: seq<Read>)
    ensures forall i :: 0 <= i < |Forwarded(trace)| ==> Forwarded(trace)[i].Output?
    ensures ChunksBounded(Forwarded(trace))
  {
    if trace != [] {
      ForwardedChunks(trace[1..]);
      var head := Sent(trace[0]);
      var tail := if trace[0].failed then [] else Forwarded(trace[1..]);
      var f := head + tail;
      assert forall i :: |head| <= i < |f| ==> f[i] == tail[i - |head|];
    }
  }

  /** The reader loses nothing and adds nothing: the bytes it sends, in
    * order, are all the bytes it read, those of the failing read included. */
  lemma {:induction false} ForwardedPayload(trace: seq<Read>)
    ensures Payload(Forwarded(trace)) == Bytes(Consumed(trace))
  {
    if trace != [] {
      var head := Sent(trace[0]);
      var tail := if trace[0].failed then [] else Forwarded(trace[1..]);
      PayloadConcat(head, tail);
      assert Payload(head) == trace[0].data by {
        if head != [] {
          assert head[1..] == [];
        }
      }
      if trace[0].failed {
        assert Consumed(trace)[1..] == [];
      } else {
        ForwardedPayload(trace[1..]);
        assert Consumed(trace)[1..] == Consumed(trace[1..]);
      }
    }
  }

  /** Nothing read after the first failing read reaches the client. */
  lemma {:induction false} ForwardedStopsAtFailure(trace: seq<Read>, k: nat)
    requires k < |trace| && trace[k].failed
    ensures Forwarded(trace) == Forwarded(trace[..k + 1])
  {
    if !trace[0].failed {
      assert trace[1..][..k] == trace[..k + 1][1..];
      if k > 0 {
        ForwardedStopsAtFailure(trace[1..], k - 1);
      }
    }
  }

  // ---------------------------------------------------------------------
  // The exit message and the end of the run

  /** `getCommand`'s argument list on Linux. */
  function Command(path: string, code: string): seq<string>
  {
    [path, "-e", code]
  }

  /** The `exit` message for the case of the `select` that fired: 0 for a
    * clean exit, -1 and the error's text (never the program's own code) for
    * a failed `Wait`, and the sampled code, with no text, after the deadline. */
  function ExitFor(end: RunEnd): (m: Message)
    ensures m.Exit?
    ensures m.exitCode == 0 && end.WaitReturned? ==> end.err.None?
    ensures end == WaitReturned(None) ==> m == Exit(0, "")
    ensures end.WaitReturned? && end.err.Some? ==> m == Exit(FailureCode, end.err.value)
    ensures end.DeadlinePassed? ==> m == Exit(end.exitCode, "")
  {
    match end
    case WaitReturned(None) => Exit(0, "")
    case WaitReturned(Some(e)) => Exit(FailureCode, e)
    case DeadlinePassed(code) => Exit(code, "")
  }

  /** What the handler does once the files are staged and `Get` has returned. */
  function Finish(req: Request, tempDir: string, binary: Result<string, string>,
                  world: World, maxTimeout: int): (r: Report)
    ensures r.launch.Some? <==> binary.Success? && world.ptyStart.None?
    ensures r.launch.Some? ==> r.launch.value.argv == Command(binary.value, req.code) && r.launch.value.dir == tempDir
    ensures r.killed ==> r.launch.Some?
    ensures |r.sent| >= 1 && r.sent[|r.sent| - 1].Exit?
  {
    match binary
    case Failure(reason) =>
      Report([Exit(FailureCode, "Failed to download binary: " + reason)], None, false)
    case Success(path) =>
      if world.ptyStart.Some? then
        Report([Exit(FailureCode, "Failed to start pty: " + world.ptyStart.value)], None, false)
      else
        var launch := Launch(Command(path, req.code), tempDir, EffectiveTimeout(req.timeout, maxTimeout));
        Report(Forwarded(world.ptyReads) + [ExitFor(world.end)], Some(launch), world.end.DeadlinePassed?)
  }

  /** After staging, the client always gets exactly one `exit`, last; a
    * failure to obtain or start the binary starts nothing and reports -1
    * with its reason; a started process's `exit` follows all its output and
    * carries 0 for a clean exit, -1 and the error for a failed `Wait`, or
    * the sampled exit code after the deadline, which also kills it. */
  lemma FinishProtocol(req: Request, tempDir: string, binary: Result<string, string>,
                       world: World, maxTimeout: int)
    ensures var r := Finish(req, tempDir, binary, world, maxTimeout);
            && OneExitLast(r.sent) && ChunksBounded(r.sent)
            && (r.launch.None? ==> |r.sent| == 1 && r.sent[0].exitCode == FailureCode && !r.killed)
            && (r.launch.Some? ==>
                  && r.sent[..|r.sent| - 1] == Forwarded(world.ptyReads)
                  && r.sent[|r.sent| - 1] == ExitFor(world.end)
                  && r.launch.value.timeoutMillis == EffectiveTimeout(req.timeout, maxTimeout)
                  && r.killed == world.end.DeadlinePassed?)
            && (binary.Failure? || world.ptyStart.Some? <==> r.launch.None?)
  {
    ForwardedChunks(world.ptyReads);
    var r := Finish(req, tempDir, binary, world, maxTimeout);
    if r.launch.Some? {
      assert r.sent[..|r.sent| - 1] == Forwarded(world.ptyReads);
    }
  }

  // ---------------------------------------------------------------------
  // The traversal check

  /** The classic escape is caught: from a temporary directory /a/b, the
    * name ../../c/d joins to /c/d, which the check rejects whenever c and a
    * begin differently (from /tmp/b1, "../../etc/passwd" gives /etc/passwd). */
  lemma StagingRejectsParentEscape(a: string, b: string, c: string, d: string, io: StagingIo)
    requires FilePath.Plain(a) && FilePath.Plain(b) && FilePath.Plain(c) && FilePath.Plain(d)
    requires a[0] != c[0]
    ensures FilePath.Join(["/" + a + "/" + b, "../../" + c + "/" + d]) == "/" + c + "/" + d
    ensures StageError("/" + a + "/" + b, "../../" + c + "/" + d, io)
            == Some("Invalid file path (traversal attempt): " + ("../../" + c + "/" + d))
  {
    FilePath.JoinUpTwice(a, b, c, d);
    var root, p := "/" + a + "/" + b, "/" + c + "/" + d;
    assert root[1] == a[0] && p[1] == c[0];
    assert !FilePath.HasPrefix(p, root) by {
      if |root| <= |p| {
        assert p[..|root|][1] != root[1];
      }
    }
  }

  /** As written, the check is a plain string prefix, so a sibling whose
    * name extends the directory's passes: from /a/b, the name ../b+ext
    * joins to /a/b+ext, which starts with "/a/b" yet lies outside it
    * (from /tmp/b1, "../b12" gives /tmp/b12). */
  lemma SiblingPassesTraversalCheck(a: string, b: string, ext: string)
    requires FilePath.Plain(a) && FilePath.Plain(b) && FilePath.Plain(b + ext) && ext != ""
    ensures FilePath.Join(["/" + a + "/" + b, "../" + b + ext]) == "/" + a + "/" + b + ext
    ensures StageError("/" + a + "/" + b, "../" + b + ext, StagingIo(map[], map[])).None?
    ensures !FilePath.StrictlyBelow(FilePath.Join(["/" + a + "/" + b, "../" + b + ext]), "/" + a + "/" + b)
  {
    var root := "/" + a + "/" + b;
    FilePath.JoinUpToSibling(a, b, b + ext);
    assert "../" + b + ext == "../" + (b + ext);
    assert "/" + a + "/" + (b + ext) == root + ext;
    assert FilePath.HasPrefix(root + ext, root) by {
      assert (root + ext)[..|root|] == root;
    }
    SiblingNotBelow(a, b, b + ext);
  }

  /** /a/b' is not below /a/b when b and b' differ. */
  lemma SiblingNotBelow(a: string, b: string, b': string)
    requires '/' !in a && '/' !in b && '/' !in b' && b != b'
    ensures !FilePath.StrictlyBelow("/" + a + "/" + b', "/" + a + "/" + b)
  {
    FilePath.SplitRootedPair(a, b);
    FilePath.SplitRootedPair(a, b');
  }

  /** The evidently intended check: the joined path must start with the
    * directory followed by a separator. */
  function CorrectedStageError(tempDir: string, name: string, io: StagingIo): Option<string>
  {
    var filePath := FilePath.Join([tempDir, name]);
    var dir := FilePath.Dir(filePath);
    if !FilePath.HasPrefix(filePath, tempDir + "/") then Some("Invalid file path (traversal attempt): " + name)
    else if dir in io.mkdirErrors then Some("Failed to create dir for file: " + io.mkdirErrors[dir])
    else if filePath in io.writeErrors then Some("Failed to write file: " + io.writeErrors[filePath])
    else None
  }

  /** The corrected check passes exactly the names whose joined path lies
    * strictly below the directory, and it is never weaker than the check as written. */
  lemma CorrectedCheckKeepsFilesBelow(tempDir: string, name: string, io: StagingIo)
    ensures var p := FilePath.Join([tempDir, name]);
            !FilePath.StrictlyBelow(p, tempDir) ==> CorrectedStageError(tempDir, name, io).Some?
    ensures CorrectedStageError(tempDir, name, io).None? ==> StageError(tempDir, name, io).None?
  {
    var p := FilePath.Join([tempDir, name]);
    FilePath.SeparatorPrefixIffBelow(p, tempDir);
    if FilePath.HasPrefix(p, tempDir + "/") {
      assert p[..|tempDir|] == (tempDir + "/")[..|tempDir|] == tempDir;
    }
  }

  // ---------------------------------------------------------------------
  // The handler

  /** `Evaluator`: the shared cache and the maximum timeout. */
  class Evaluator {
    const downloader: Download.Manager
    const maxTimeout: int

    constructor (downloader: Download.Manager, maxTimeout: int)
      ensures this.downloader == downloader && this.maxTimeout == maxTimeout
    {
      this.downloader := downloader;
      this.maxTimeout := maxTimeout;
    }

    /** `ExecuteHandler` for one connection. Returns the messages written to
      * the client, the files staged, the process started (if any) and
      * whether it was killed. */
    method ExecuteHandler(inbound: Inbound, world: World)
      returns (sent: seq<Message>, staged: map<string, string>, launch: Option<Launch>, killed: bool)
      requires downloader.Valid()
      modifies downloader
      ensures downloader.Valid()
      ensures !Accepted(inbound) ==>
                && sent == [] && staged == map[] && launch.None? && !killed
                && downloader.State() == old(downloader.State())
                && downloader.fetches == old(downloader.fetches)
                && downloader.removals == old(downloader.removals)
      ensures Accepted(inbound) ==> OneExitLast(sent) && ChunksBounded(sent)
      ensures Accepted(inbound) && world.tempDir.Failure? ==>
                && sent == [Exit(FailureCode, "Failed to create temp dir: " + world.tempDir.error)]
                && staged == map[] && launch.None? && !killed
                && downloader.State() == old(downloader.State())
                && downloader.fetches == old(downloader.fetches)
                && downloader.removals == old(downloader.removals)
      ensures Accepted(inbound) && world.tempDir.Success? ==>
                var req, dir := inbound.decoded.value, world.tempDir.value;
                && (forall p :: p in staged ==> FilePath.HasPrefix(p, dir))
                && (!AllStageable(dir, req.files, world.staging) ==>
                      && launch.None? && !killed && |sent| == 1
                      && (exists n :: n in req.files && StageError(dir, n, world.staging) == Some(sent[0].msg))
                      && sent[0].exitCode == FailureCode
                      && downloader.State() == old(downloader.State())
                      && downloader.fetches == old(downloader.fetches)
                      && downloader.removals == old(downloader.removals))
                && (AllStageable(dir, req.files, world.staging) ==>
                      var s := Download.Resolve(old(downloader.State()), downloader.cacheDir, downloader.maxCache,
                                                req.version, world.existing, world.fetch);
                      && (forall n :: n in req.files ==> FilePath.Join([dir, n]) in staged)
                      && downloader.State() == s.cache
                      && downloader.fetches == old(downloader.fetches) + s.fetches
                      && downloader.removals == old(downloader.removals) + s.removals
                      && Report(sent, launch, killed) == Finish(req, dir, s.result, world, maxTimeout))
    {
      sent, staged, launch, killed := [], map[], None, false;
      if inbound.UpgradeFailed? || inbound.ReadFailed? || inbound.messageType != TextMessage || inbound.decoded.None? {
        return;
      }
      var req := inbound.decoded.value;

      if world.tempDir.Failure? {
        sent := [Exit(FailureCode, "Failed to create temp dir: " + world.tempDir.error)];
        return;
      }
      var tempDir := world.tempDir.value;

      var err;
      staged, err := StageFiles(tempDir, req.files, world.staging);
      if err.Some? {
        sent := [Exit(FailureCode, err.value)];
        return;
      }

      var binary := downloader.Get(req.version, world.existing, world.fetch);
      FinishProtocol(req, tempDir, binary, world, maxTimeout);
      if binary.Failure? {
        sent := [Exit(FailureCode, "Failed to download binary: " + binary.error)];
        return;
      }

      var timeout := EffectiveTimeout(req.timeout, maxTimeout);
      var argv := Command(binary.value, req.code);
      if world.ptyStart.Some? {
        sent := [Exit(FailureCode, "Failed to start pty: " + world.ptyStart.value)];
        return;
      }
      launch := Some(Launch(argv, tempDir, timeout));

      var output := Drain(world.ptyReads);
      match world.end
      case WaitReturned(e) =>
        if e.Some? {
          sent := output + [Exit(FailureCode, e.value)];
        } else {
          sent := output + [Exit(0, "")];
        }
      case DeadlinePassed(code) =>
        killed := true;
        sent := output + [Exit(code, "")];
    }
  }
}
