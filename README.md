# bpftrace-playground core, modelled in Dafny

This project models the decision logic of the bpftrace-playground service.
The service runs a submitted bpftrace script against a chosen bpftrace
release and streams the output back over a websocket. Three parts are
modelled:

- **The binary cache** (`download.Manager`, module `Download`). It is a
  bounded LRU map from a release version to the path of its downloaded
  binary. `Get` is either a hit, a miss whose binary is already on disk, or
  a fetch. `add` evicts the back of the recency list when the list is full.
  `Manager` is a class whose `cache` and `lru` fields are updated in place.
  Each method is proved to follow a value-level function: `Touch`, `Insert`
  or `Resolve`. The cache invariant (`Download.Inv`) says the map's keys are
  the list's elements, the list has no repeats, it holds at most
  max(maxCache, 1) versions, and every entry is
  `Join(cacheDir, version, "bpftrace")`.
- **One websocket session** (`Evaluator.ExecuteHandler`, module `Evaluate`).
  The handler reads the request, clamps the timeout, stages the files in a
  temporary directory behind a traversal check, and resolves the binary
  through the cache. It then starts the binary on a pseudo-terminal and
  forwards the output in chunks of at most 4096 bytes. Finally it sends one
  `exit` message. The staging loop and the reader loop are methods with
  loops, proved against the functions `StageError` and `Forwarded`.
- **The page parameters** (`Server.embedHandler`, module `Service`). A pure
  function maps the query to the page data or a 400 error.

`FilePath` models the lexical part of Go's `path/filepath` for Unix paths:
`Clean`, `Join`, `Dir` and `strings.HasPrefix`. It is needed to state where
cached binaries and staged files land.

### What comes from outside

Everything the handlers learn from the outside world is a parameter:

- **Filesystem.** The paths `os.Stat` finds are a set. The errors `os.MkdirAll`
  and `os.WriteFile` report are maps from path to error text. The result of
  `os.MkdirTemp` is a `Result`.
- **Download.** The outcome of the HTTP download is `Fetched` or
  `FetchFailed(reason)`.
- **Websocket.** The first frame is `UpgradeFailed`, `ReadFailed`, or a frame
  with its type and its decoded request (or none).
- **Pseudo-terminal.** The result of `pty.Start`, and the sequence of
  `ptmx.Read` results, each with its bytes and whether it also returned an
  error.
- **The final `select`.** Either `cmd.Wait` returns first, with its error if
  any, or the deadline passes first, with the exit code the killed process
  reports.
- **Order of `req.Files`.** Map iteration order is left open: the loop
  picks the next name with `:|`.

### Traces

Messages written to the websocket are returned as a sequence, in order. The
URLs the cache downloads and the directories it hands to `os.RemoveAll` are
ghost logs on the `Manager`.

### Where the code and the documented design differ

The model follows the code in each case.

- **Non-zero exit.** A program that exits with a non-zero status makes
  `cmd.Wait` return an error. It is then reported as exit code -1 with the
  error's text, not with its real exit code (pkg/evaluate/evaluate.go:170-174).
- **Traversal check.** Staging checks only a string prefix, not "strictly
  inside the workspace". See Findings.
- **Partial staging.** Files staged before a rejected or failed file stay
  written until the workspace is removed. Staging does not stop before any
  file is written.
- **Eviction.** An evicted binary is not removed from disk. See Findings.
  A later `Get` for that version finds the file through `os.Stat` and
  registers it again without downloading.
- **Two timeout bounds.** The page keeps a requested timeout t only when
  0 <= t < maxTimeout. The evaluator keeps it when 0 <= t <= maxTimeout.
  The results agree, because t = maxTimeout yields maxTimeout either way
  (`Service.PageTimeoutAgreesWithEvaluator`).

## Model

| member | source | states |
|---|---|---|
| Download.IndexOf | pkg/download/download.go:46-51 | the scan returns the first index of the list element holding the version, and reaches the end exactly when no element holds it |
| Download.RemoveFirst | pkg/download/download.go:48 | taking out a version shortens a list that holds it by exactly one and leaves any other list unchanged |
| Download.MoveToFrontAt | pkg/download/download.go:46-51 | the element the scan finds is always found, and moving it to the front is exactly `Touch` and keeps the invariant |
| Download.RemoveFirstAt | pkg/download/download.go:48 | taking out the element found at index k is cutting the list at k |
| Download.RemoveFirstContents | pkg/download/download.go:48 | on a list without repeats, taking out a version leaves every other version, one fewer element, and no repeats |
| Download.Touch | pkg/download/download.go:44-53 | a hit leaves the map unchanged; when the list holds the version it keeps its length and puts the version first, and otherwise nothing changes |
| Download.Insert | pkg/download/download.go:70-83 | after `add` the new version is first in the list and maps to its path; the list keeps its length when `add` evicts and grows by one otherwise |
| Download.InsertRemovals | pkg/download/download.go:77-78 | `add` hands at most one directory to `os.RemoveAll`, and hands one exactly when it evicts |
| Download.Resolve | pkg/download/download.go:40-68 | a hit returns the stored path with no download and no removal; a miss downloads exactly when the binary is not on disk; `Get` fails exactly when that download fails, and then changes nothing; on success the version maps to the returned path; at most one directory is removed |
| Download.TouchPreservesInv | pkg/download/download.go:44-53 | a hit keeps the cache invariant, leaves the map unchanged, keeps the list's length, and puts the version at the front |
| Download.InsertKeepsListInSync | pkg/download/download.go:70-83 | after `add` on a miss, the map's keys are still exactly the list's elements and the list has no repeats |
| Download.InsertPreservesInv | pkg/download/download.go:70-83 | `add` on a miss keeps the whole invariant, including the size bound and every entry being its version's `Join(cacheDir, v, "bpftrace")` |
| Download.InsertEvictsBack | pkg/download/download.go:71-82 | when the list is full, exactly its back element leaves both the list and the map and the new version goes to the front; otherwise nothing leaves and the list grows by one |
| Download.InsertBounded | pkg/download/download.go:71-82 | after `add` the list holds at most max(maxCache, 1) versions |
| Download.ResolveHit | pkg/download/download.go:44-53 | a hit returns the stored path, keeps the map, moves the version to the front, and neither downloads nor removes anything |
| Download.ResolveExistingMiss | pkg/download/download.go:55-59 | a miss whose binary is on disk returns its path and registers it through `add` without downloading |
| Download.ResolveFetchFailure | pkg/download/download.go:61-64 | a failed download returns its error and leaves `cache` and `lru` exactly as before |
| Download.ResolvePreservesInv | pkg/download/download.go:40-68 | every `Get` keeps the invariant, every path it returns is the version's binary under the cache directory, and a failure changes nothing |
| Download.DirOfCachePath | pkg/download/download.go:55 | the binary of a version sits in the directory `Join(cacheDir, version)` |
| Download.EvictionRemovesDot | pkg/download/download.go:77-78 | as written, the eviction hands `filepath.Dir("")`, which is ".", to `os.RemoveAll` |
| Download.EvictionMissesEvictedDir | pkg/download/download.go:77-78 | with an absolute cache directory, that removal target is never the evicted version's directory |
| Download.IntendedRemovalIsVersionDir | pkg/download/download.go:77-78 | with the path read before the delete, the removal target is exactly the evicted version's directory |
| Download.Manager.constructor | pkg/download/download.go:26-37 | a new manager has an empty map and list and satisfies the invariant |
| Download.Manager.Get | pkg/download/download.go:40-68 | `Get` keeps the invariant, and its new fields, result, downloads and removals are those of `Resolve` on the old fields |
| Download.Manager.MoveVersionToFront | pkg/download/download.go:45-51 | the in-place scan and move leave the fields as `Touch` says and keep the invariant |
| Download.Manager.Add | pkg/download/download.go:70-83 | the in-place evict and push leave the fields as `Insert` says, log the removal target as the code computes it, and keep the invariant |
| FilePath.DirOfChild | pkg/download/download.go:78 | the directory of `Clean(x + "/" + leaf)` is `Clean(x)` |
| FilePath.SeparatorPrefixIffBelow | pkg/evaluate/evaluate.go:107 | a path starts with `root + "/"` exactly when its components extend the root's |
| FilePath.JoinUpToSibling | pkg/evaluate/evaluate.go:106 | from the directory /a/b, `Join` of the name ../c is /a/c |
| FilePath.JoinUpTwice | pkg/evaluate/evaluate.go:106 | from the directory /a/b, `Join` of the name ../../c/d is /c/d |
| Evaluate.EffectiveTimeout | pkg/evaluate/evaluate.go:127-130 | the timeout is the maximum when the request's is negative or above it, and the request's otherwise; it lies in [0, maxTimeout] whenever maxTimeout >= 0 |
| Evaluate.EffectiveTimeoutIdempotent | pkg/evaluate/evaluate.go:127-130 | clamping an already clamped timeout changes nothing |
| Evaluate.StageError | pkg/evaluate/evaluate.go:105-118 | a file stages exactly when its joined path passes the prefix check and neither `MkdirAll` of its directory nor `WriteFile` of it fails; a path that fails the check gets the traversal message naming the file |
| Evaluate.StageFiles | pkg/evaluate/evaluate.go:105-119 | in any iteration order, every file written passed the prefix check and holds the content of a name that joins to it; the loop writes every file exactly when no name fails, and otherwise stops with the error of a name that fails |
| Evaluate.Drain | pkg/evaluate/evaluate.go:147-158 | the reader loop sends exactly `Forwarded` of the reads |
| Evaluate.Forwarded | pkg/evaluate/evaluate.go:147-158 | the reader sends at most one message per read it performs, and performs no read after the first one with an error |
| Evaluate.ForwardedStep | pkg/evaluate/evaluate.go:148-158 | one turn of the reader loop sends that read's chunk and stops after a read with an error |
| Evaluate.ForwardedChunks | pkg/evaluate/evaluate.go:150-155 | the reader sends only `output` messages, each with a non-empty chunk of at most 4096 bytes |
| Evaluate.ForwardedPayload | pkg/evaluate/evaluate.go:148-158 | the bytes sent, in order, are all the bytes read up to and including the first read with an error, so that read's bytes are forwarded too |
| Evaluate.ForwardedStopsAtFailure | pkg/evaluate/evaluate.go:156-158 | nothing read after the first read with an error reaches the client |
| Evaluate.ExitFor | pkg/evaluate/evaluate.go:169-193 | the `exit` message is 0 for a clean `Wait`, -1 with the error's text for a failed one, and the sampled exit code after the deadline |
| Evaluate.Finish | pkg/evaluate/evaluate.go:121-193 | a process starts exactly when `Get` and `pty.Start` both succeed, with the argument list `[path, "-e", code]` in the temporary directory; only a started process is killed; the last message is always an `exit` |
| Evaluate.FinishProtocol | pkg/evaluate/evaluate.go:121-193 | after staging, exactly one `exit` comes last; a failure to get or start the binary starts nothing and reports -1; a started process's output precedes its `exit`, its deadline is the clamped timeout, and it is killed exactly when the deadline fires first |
| Evaluate.StagingRejectsParentEscape | pkg/evaluate/evaluate.go:105-110 | from /a/b, the name ../../c/d lands at /c/d and is rejected with the traversal message whenever a and c begin differently |
| Evaluate.SiblingPassesTraversalCheck | pkg/evaluate/evaluate.go:106-107 | from /a/b, the name ../b+ext lands at /a/b+ext outside the directory, yet the check as written lets it through |
| Evaluate.CorrectedCheckKeepsFilesBelow | pkg/evaluate/evaluate.go:106-107 | a check against `tempDir + "/"` rejects every name that does not land strictly below the directory, and it never accepts a name the check as written rejects |
| Evaluate.Evaluator.constructor | pkg/evaluate/evaluate.go:54-56 | the evaluator holds the given cache and maximum timeout |
| Evaluate.Evaluator.ExecuteHandler | pkg/evaluate/evaluate.go:58-194 | no message at all for a failed upgrade, failed read, non-text frame or undecodable request; otherwise exactly one `exit`, last; a temp-dir or staging failure gives one -1 `exit` with its text, with no download and no launch; no early exit touches the cache, its downloads or its removals; staged paths all pass the prefix check; with every file staged, the cache, its downloads and its removals move as `Get` does and everything after is `Finish` |
| Service.EmbedPage | pkg/service/service.go:65-117 | the page is refused with a 400 exactly when a non-empty code or files does not decode or a non-empty timeout is not an integer, naming the first such parameter; a page has "" code, "{}" files and the "latest" version by default, the workload as given, and the maximum timeout unless a parsed 0 <= t < maxTimeout was given, so never above the maximum |
| Service.PageTimeoutAgreesWithEvaluator | pkg/service/service.go:100-109 | the page's timeout is the one the evaluator's clamp gives the parsed value, and the clamp leaves the page's timeout unchanged |

## Left out

- Locking. The mutexes `Manager.mu` and `Evaluator.mu` are left out: each
  `Get` and each handler run is one atomic step.
- Concurrency. The reader and waiter goroutines, `sync.WaitGroup`, the
  channel and the `select` are reduced to their outcomes: the sequence of
  reads and the `select`'s choice. The `wg.Wait` before every `exit` means
  all output precedes it, and the model states that order.
- The websocket. The upgrade, JSON encoding, and write errors are left out.
  Write errors are only logged by the code, so the returned messages are the
  writes attempted.
- Processes and time. `exec.CommandContext`, the network-namespace
  isolation in pkg/evaluate/command_linux.go, `pty.Start`, the kill and real
  time are left out. Only the argument list `[path, "-e", code]`, the working
  directory and the deadline in milliseconds are recorded.
- Filesystem and network I/O. `download`'s HTTP request, body copy and
  chmod are one fallible fetch; a failed download may leave a partial file
  behind. `os.Stat`, `MkdirAll`, `WriteFile`, `RemoveAll` and `MkdirTemp` are
  parameters or logs. The deferred removal of the temporary directory and the
  closing of the pty and the connection are not modelled.
- Effects of `RemoveAll`. `os.RemoveAll(".")` refuses a path ending in "."
  and removes nothing; the model only records the target.
- Evaluate.StageFiles: the `MkdirAll` and `WriteFile` failures form a fixed
  map by path. They do not depend on files written earlier in the same loop,
  such as a file that occupies a later file's directory name.
- Evaluate.EffectiveTimeout: the int64 overflow of
  `time.Duration(timeout) * time.Millisecond` for a maximum above about
  9.2e12 ms is not modelled.
- Base64 (section 4 of RFC 4648) and `strconv.Atoi`. These are partial
  functions passed to `Service.EmbedPage`; their internals are not
  modelled.
- Rendering and routing. Template parsing and execution, the embedded
  templates, routing and `ListenAndServe` in pkg/service/service.go are not
  modelled.
- Server wiring. pkg/service/service.go:48 calls `NewEvaluator` with one
  argument, while pkg/evaluate/evaluate.go:54 takes two, so `NewServer` is
  not modelled.
- `NewManager`'s error return (pkg/download/download.go:27-29, a failing
  `MkdirAll` of the cache directory) is not modelled. The constructor
  `Download.Manager.constructor` stands for the successful case only.
- The end of the output stream. The reader loop of
  pkg/evaluate/evaluate.go:148-159 stops only on a read error. A `ptyReads`
  trace that has no failing read stands for the reads performed so far: the
  rest of the stream is not described, and `Forwarded` sends the chunks of
  those reads.
- main.go is not part of this model. It only reads flags and environment
  variables.
- Download.Manager.Get and Evaluate.Evaluator.ExecuteHandler follow the code
  as written: one logs the eviction's "." target and the other applies the
  prefix check without a separator. The corrected definitions below sit
  beside them and are not wired in.

## Findings

| source | as written | input that shows it | evidently intended | confidence | as-written member | corrected member |
|---|---|---|---|---|---|---|
| pkg/download/download.go:77-78 | the evicted entry is deleted from the map before its path is read, so `os.RemoveAll` gets `filepath.Dir("")`, i.e. "." | cache directory /tmp/cache, maxCache 1, holding v1; `Get("v2")` misses and evicts v1, which triggers `RemoveAll(".")`, and /tmp/cache/v1 stays on disk | remove `Dir` of the path read before the delete, which is /tmp/cache/v1 | not executed | Download.EvictionMissesEvictedDir | Download.IntendedRemovalIsVersionDir |
| pkg/evaluate/evaluate.go:107 | the traversal check is `strings.HasPrefix(filePath, tempDir)` with no separator, so a sibling directory whose name extends the temporary directory's passes | temporary directory /tmp/b1 and file name "../b12": the file is written to /tmp/b12, outside the workspace | accept only paths starting with `tempDir + "/"`, which holds exactly for paths strictly below the directory | not executed | Evaluate.SiblingPassesTraversalCheck | Evaluate.CorrectedCheckKeepsFilesBelow |
