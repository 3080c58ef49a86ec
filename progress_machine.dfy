/** What one yt-dlp download attempt does with the output of its process:
    the stdout state machine (merge detection, clamped progress, speed,
    ETA, the output path), the stderr error capture, the search for the
    finished file when the process closes, the close-time decision, and the
    single fallback attempt for an exit code of 255. The closure variables
    of performDownload are a `Flags` value; the class in ytdlp_service.dfy
    holds them and applies these functions step by step. */
module ProgressMachine {
  import opened Wrappers
  import opened JsStrings
  import opened SharedTypes
  import opened OutputParser
  import opened YtDlpHelpers

  /** performDownload's local state: isMerging, mergeComplete,
      downloadComplete, hasError, errorMessage and outputFilePath. */
  datatype Flags = Flags(
    isMerging: bool,
    mergeComplete: bool,
    downloadComplete: bool,
    hasError: bool,
    errorMessage: string,
    outputFilePath: string)

  function InitialFlags(fullPath: string): (f: Flags)
    ensures !f.isMerging && !f.mergeComplete && !f.downloadComplete && !f.hasError
    ensures f.errorMessage == "" && f.outputFilePath == fullPath
  {
    Flags(false, false, false, false, "", fullPath)
  }

  /** Merging never completes before it starts. */
  predicate FlagsConsistent(f: Flags) {
    f.mergeComplete ==> f.isMerging
  }

  // ---------------------------------------------------------------------
  // stdout

  /** The local state after one stdout chunk. A merge-target line wins over
      a destination line of the same chunk, as its assignment comes last. */
  function AfterStdout(f: Flags, c: ChunkInfo): Flags {
    var merging := f.isMerging || c.mergeStart;
    f.(isMerging := merging,
       mergeComplete := f.mergeComplete || (c.mergeDone && merging),
       downloadComplete := f.downloadComplete || (c.percent.Some? && c.percent.value >= 100.0),
       outputFilePath :=
         if c.mergeTarget.Some? then Trim(c.mergeTarget.value)
         else if c.destination.Some? then Trim(c.destination.value)
         else f.outputFilePath)
  }

  /** The progress written for a percentage: at or above 100 the download is
      finished, but 100 is only shown once no merge is pending. */
  function ShownProgress(p: real, merging: bool, mergeDone: bool): (r: real)
    ensures p < 100.0 ==> r == p
    ensures p >= 100.0 ==> 99.0 <= r <= 100.0
    ensures r == 100.0 <==> p >= 100.0 && (!merging || mergeDone)
  {
    if p >= 100.0 then (if !merging || mergeDone then 100.0 else 99.0) else p
  }

  /** The updates one stdout chunk makes to the job record, in order: the
      merge marker's, the progress, then speed and ETA. */
  function StdoutPatches(f: Flags, c: ChunkInfo): seq<Patch> {
    var g := AfterStdout(f, c);
    MergePatches(c) + PercentPatches(c, g.isMerging, g.mergeComplete) + RatePatches(c)
  }

  function MergePatches(c: ChunkInfo): seq<Patch> {
    if c.mergeStart then [NoChange.(status := Some(Downloading), progress := Some(99.0))] else []
  }

  function PercentPatches(c: ChunkInfo, merging: bool, mergeDone: bool): seq<Patch> {
    if c.percent.Some? then [NoChange.(progress := Some(ShownProgress(c.percent.value, merging, mergeDone)))] else []
  }

  function RatePatches(c: ChunkInfo): seq<Patch> {
    (if c.speed.Some? then [NoChange.(speed := c.speed)] else [])
    + (if c.eta.Some? then [NoChange.(eta := c.eta)] else [])
  }

  /** The flags only ever switch on, and merging stays ahead of its completion. */
  lemma StdoutFlagsMonotone(f: Flags, c: ChunkInfo)
    requires FlagsConsistent(f)
    ensures FlagsConsistent(AfterStdout(f, c))
    ensures f.isMerging ==> AfterStdout(f, c).isMerging
    ensures f.mergeComplete ==> AfterStdout(f, c).mergeComplete
    ensures f.downloadComplete ==> AfterStdout(f, c).downloadComplete
    ensures AfterStdout(f, c).errorMessage == f.errorMessage && AfterStdout(f, c).hasError == f.hasError
  {
  }

  /** A shown progress stays within 0..100 and is never 100 while a merge
      is pending. */
  lemma ShownProgressBounded(p: real, merging: bool, mergeDone: bool)
    requires p >= 0.0
    ensures 0.0 <= ShownProgress(p, merging, mergeDone) <= 100.0
    ensures merging && !mergeDone ==> ShownProgress(p, merging, mergeDone) != 100.0
  {
  }

  /** No stdout chunk with a non-negative percentage writes a progress
      outside 0..100, none writes 100 while a merge is pending, and none
      touches the error, the file path or the file name, or sets a status
      other than 'downloading'. */
  lemma StdoutPatchesBounded(f: Flags, c: ChunkInfo)
    requires c.percent.Some? ==> c.percent.value >= 0.0
    ensures forall q :: q in StdoutPatches(f, c) && q.progress.Some? ==> 0.0 <= q.progress.value <= 100.0
    ensures AfterStdout(f, c).isMerging && !AfterStdout(f, c).mergeComplete ==>
      forall q :: q in StdoutPatches(f, c) ==> q.progress != Some(100.0)
    ensures forall q :: q in StdoutPatches(f, c) ==>
      q.status in {None, Some(Downloading)} && q.error.None? && q.filePath.None? && q.filename.None?
  {
    var g := AfterStdout(f, c);
    var m := MergePatches(c);
    var p := PercentPatches(c, g.isMerging, g.mergeComplete);
    var r := RatePatches(c);
    assert StdoutPatches(f, c) == m + p + r;
    if c.percent.Some? {
      ShownProgressBounded(c.percent.value, g.isMerging, g.mergeComplete);
    }
    forall q: Patch | q in m + p + r
      ensures q.progress.Some? ==> 0.0 <= q.progress.value <= 100.0
      ensures g.isMerging && !g.mergeComplete ==> q.progress != Some(100.0)
      ensures q.status in {None, Some(Downloading)} && q.error.None? && q.filePath.None? && q.filename.None?
    {
      if q in m {
      } else if q in p {
      } else {
        assert q in r;
      }
    }
  }

  /** The same for every chunk the parser produces. */
  lemma ParsedChunkPatchesBounded(f: Flags, output: string)
    ensures forall q :: q in StdoutPatches(f, ParseChunk(output)) && q.progress.Some? ==>
      0.0 <= q.progress.value <= 100.0
  {
    StdoutPatchesBounded(f, ParseChunk(output));
  }

  /** Fold of AfterStdout over several chunks. */
  function AfterStdoutAll(f: Flags, cs: seq<ChunkInfo>): Flags
    decreases |cs|
  {
    if cs == [] then f else AfterStdoutAll(AfterStdout(f, cs[0]), cs[1..])
  }

  /** Once a merge has started, only a completion marker lets 100 through:
      the flags keep their consistency over any run of chunks. */
  lemma {:induction false} StdoutAllConsistent(f: Flags, cs: seq<ChunkInfo>)
    requires FlagsConsistent(f)
    ensures FlagsConsistent(AfterStdoutAll(f, cs))
    ensures f.isMerging ==> AfterStdoutAll(f, cs).isMerging
    ensures f.downloadComplete ==> AfterStdoutAll(f, cs).downloadComplete
    decreases |cs|
  {
    if cs != [] {
      StdoutFlagsMonotone(f, cs[0]);
      StdoutAllConsistent(AfterStdout(f, cs[0]), cs[1..]);
    }
  }

  function ProgressOnly(p: real): ChunkInfo {
    ChunkInfo(false, false, Some(p), None, None, None, None)
  }

  /** Progress is not monotonic: a later chunk with a lower percentage
      overwrites a higher one. */
  lemma ProgressCanDecrease(f: Flags)
    ensures StdoutPatches(f, ProgressOnly(50.0)) == [NoChange.(progress := Some(50.0))]
    ensures StdoutPatches(AfterStdout(f, ProgressOnly(50.0)), ProgressOnly(10.0)) == [NoChange.(progress := Some(10.0))]
  {
  }

  // ---------------------------------------------------------------------
  // stderr

  /** Only a chunk naming an error is recorded, and it replaces the previous
      message rather than adding to it. */
  function AfterStderr(f: Flags, e: string): (g: Flags)
    ensures IsErrorChunk(e) ==> g.hasError && g.errorMessage == e
    ensures !IsErrorChunk(e) ==> g == f
    ensures g.isMerging == f.isMerging && g.mergeComplete == f.mergeComplete
    ensures g.outputFilePath == f.outputFilePath && g.downloadComplete == f.downloadComplete
  {
    if IsErrorChunk(e) then f.(hasError := true, errorMessage := e) else f
  }

  function AfterStderrAll(f: Flags, es: seq<string>): Flags
    decreases |es|
  {
    if es == [] then f else AfterStderrAll(AfterStderr(f, es[0]), es[1..])
  }

  /** Chunk `k` names an error and no later chunk does. */
  predicate IsLatestError(es: seq<string>, k: int)
  {
    0 <= k < |es| && IsErrorChunk(es[k]) && forall j :: k < j < |es| ==> !IsErrorChunk(es[j])
  }

  /** The last chunk of `es` that names an error. */
  function LastErrorChunk(es: seq<string>): (r: Option<string>)
    ensures r.Some? ==> r.value in es && IsErrorChunk(r.value)
    ensures r.None? ==> forall k :: 0 <= k < |es| ==> !IsErrorChunk(es[k])
    ensures forall k :: IsLatestError(es, k) ==> r == Some(es[k])
    decreases |es|
  {
    if es == [] then None
    else if IsErrorChunk(es[|es| - 1]) then
      LatestIsLast(es);
      Some(es[|es| - 1])
    else
      var r0 := LastErrorChunk(es[..|es| - 1]);
      LatestSurvivesDrop(es, es[..|es| - 1], r0);
      r0
  }

  /** When the last chunk names an error, it is the only latest one. */
  lemma LatestIsLast(es: seq<string>)
    requires es != [] && IsErrorChunk(es[|es| - 1])
    ensures forall k :: IsLatestError(es, k) ==> Some(es[|es| - 1]) == Some(es[k])
  {
    forall k | IsLatestError(es, k)
      ensures Some(es[|es| - 1]) == Some(es[k])
    {
    }
  }

  /** When the last chunk names no error, the latest error chunk is the
      same in the run without it. */
  lemma LatestSurvivesDrop(es: seq<string>, init: seq<string>, r: Option<string>)
    requires es != [] && !IsErrorChunk(es[|es| - 1]) && init == es[..|es| - 1]
    requires forall k :: IsLatestError(init, k) ==> r == Some(init[k])
    requires r.None? ==> forall k :: 0 <= k < |init| ==> !IsErrorChunk(init[k])
    ensures forall k :: IsLatestError(es, k) ==> r == Some(es[k])
    ensures r.None? ==> forall k :: 0 <= k < |es| ==> !IsErrorChunk(es[k])
  {
    if r.None? {
      forall k | 0 <= k < |es| - 1
        ensures !IsErrorChunk(es[k])
      {
        assert init[k] == es[k];
      }
    }
    forall k | IsLatestError(es, k)
      ensures r == Some(es[k])
    {
      assert init[k] == es[k];
      forall j | k < j < |init|
        ensures !IsErrorChunk(init[j])
      {
        assert init[j] == es[j];
      }
    }
  }

  /** After any run of stderr chunks the recorded message is the latest
      error chunk, and the error flag says whether there was one. */
  lemma {:induction false} StderrKeepsLatest(f: Flags, es: seq<string>)
    ensures AfterStderrAll(f, es).errorMessage == (match LastErrorChunk(es) case None => f.errorMessage case Some(e) => e)
    ensures AfterStderrAll(f, es).hasError == (f.hasError || LastErrorChunk(es).Some?)
    decreases |es|
  {
    if es != [] {
      var init := es[..|es| - 1];
      var last := es[|es| - 1];
      AfterStderrAllSnoc(f, init, last);
      StderrKeepsLatest(f, init);
      assert init + [last] == es;
    }
  }

  lemma {:induction false} AfterStderrAllSnoc(f: Flags, es: seq<string>, e: string)
    ensures AfterStderrAll(f, es + [e]) == AfterStderr(AfterStderrAll(f, es), e)
    decreases |es|
  {
    if es == [] {
      assert [] + [e] == [e];
    } else {
      assert (es + [e])[1..] == es[1..] + [e];
      AfterStderrAllSnoc(AfterStderr(f, es[0]), es[1..], e);
    }
  }

  // ---------------------------------------------------------------------
  // locating the finished file

  /** The first of outputFilePath and fullPath that exists. */
  function ObviousPath(outputFilePath: string, fullPath: string, existing: set<string>): (r: Option<string>)
    ensures r.Some? ==> r.value in existing && (r.value == outputFilePath || r.value == fullPath)
    ensures r.None? <==> outputFilePath !in existing && fullPath !in existing
    ensures outputFilePath in existing ==> r == Some(outputFilePath)
  {
    if outputFilePath in existing then Some(outputFilePath)
    else if fullPath in existing then Some(fullPath)
    else None
  }

  /** The directory search's test of one listed name. */
  predicate LooksLikeOutput(file: string, expectedExt: string, titlePrefix: string) {
    EndsWith(file, expectedExt) && (Includes(file, "Claude") || Includes(file, titlePrefix))
  }

  /** Listed file `k` passes the test and exists under the output directory. */
  predicate Hit(files: seq<string>, k: int, outputDir: string, expectedExt: string, titlePrefix: string,
                existing: set<string>) {
    0 <= k < |files| && LooksLikeOutput(files[k], expectedExt, titlePrefix) && PathJoin(outputDir, files[k]) in existing
  }

  /** The index of the first hit at or after `from`. */
  function FirstHit(files: seq<string>, from: nat, outputDir: string, expectedExt: string, titlePrefix: string,
                    existing: set<string>): (r: Option<nat>)
    ensures r.Some? ==> from <= r.value && Hit(files, r.value, outputDir, expectedExt, titlePrefix, existing)
    ensures r.Some? ==> forall k :: from <= k < r.value ==> !Hit(files, k, outputDir, expectedExt, titlePrefix, existing)
    ensures r.None? ==> forall k :: from <= k ==> !Hit(files, k, outputDir, expectedExt, titlePrefix, existing)
    decreases |files| - from
  {
    if from >= |files| then None
    else if Hit(files, from, outputDir, expectedExt, titlePrefix, existing) then Some(from)
    else FirstHit(files, from + 1, outputDir, expectedExt, titlePrefix, existing)
  }

  /** The path of the first listed file that passes the test and exists. */
  function SearchDirectory(files: seq<string>, outputDir: string, expectedExt: string, titlePrefix: string,
                           existing: set<string>): (r: Option<string>)
    ensures r.Some? ==> r.value in existing
    ensures r.Some? ==> exists k :: Hit(files, k, outputDir, expectedExt, titlePrefix, existing) && r.value == PathJoin(outputDir, files[k])
    ensures r.None? ==> forall k :: 0 <= k < |files| && LooksLikeOutput(files[k], expectedExt, titlePrefix) ==>
                                    PathJoin(outputDir, files[k]) !in existing
    ensures r.None? <==> forall k :: !Hit(files, k, outputDir, expectedExt, titlePrefix, existing)
  {
    match FirstHit(files, 0, outputDir, expectedExt, titlePrefix, existing)
    case None =>
      forall k | 0 <= k < |files| && LooksLikeOutput(files[k], expectedExt, titlePrefix)
        ensures PathJoin(outputDir, files[k]) !in existing
      {
        assert !Hit(files, k, outputDir, expectedExt, titlePrefix, existing);
      }
      None
    case Some(k) => Some(PathJoin(outputDir, files[k]))
  }

  /** Where the close handler finds the file: found, searched for in vain,
      or the directory could not be read. */
  datatype Located = Found(path: string) | NotFound | LocateFailed

  /** `listing` is what `fs.readdir(outputDir)` yields, `None` when it throws;
      `existing` is the set of paths `fs.access` accepts. An obvious path
      that is the empty string is falsy and sends the search on. */
  function Locate(outputFilePath: string, fullPath: string, outputDir: string, sanitizedTitle: string,
                  existing: set<string>, listing: Option<seq<string>>): (loc: Located)
    ensures loc.Found? ==> loc.path in existing
    ensures ObviousPath(outputFilePath, fullPath, existing).Some? && ObviousPath(outputFilePath, fullPath, existing).value != "" ==>
      loc == Found(ObviousPath(outputFilePath, fullPath, existing).value)
    ensures loc.LocateFailed? ==> listing.None?
    ensures loc.Found? && loc.path != outputFilePath && loc.path != fullPath ==>
      listing.Some? && exists k :: Hit(listing.value, k, outputDir, ExtName(fullPath), Take(sanitizedTitle, 10), existing)
                                   && loc.path == PathJoin(outputDir, listing.value[k])
    ensures listing.Some? && (exists k :: Hit(listing.value, k, outputDir, ExtName(fullPath), Take(sanitizedTitle, 10), existing)) ==>
      loc.Found?
    ensures loc.NotFound? <==>
      listing.Some? && !(ObviousPath(outputFilePath, fullPath, existing).Some? && ObviousPath(outputFilePath, fullPath, existing).value != "")
      && forall k :: !Hit(listing.value, k, outputDir, ExtName(fullPath), Take(sanitizedTitle, 10), existing)
  {
    var first := ObviousPath(outputFilePath, fullPath, existing);
    if first.Some? && first.value != "" then Found(first.value)
    else
      match listing
      case None => LocateFailed
      case Some(files) =>
        match SearchDirectory(files, outputDir, ExtName(fullPath), Take(sanitizedTitle, 10), existing)
        case None => NotFound
        case Some(p) => Found(p)
  }

  // ---------------------------------------------------------------------
  // the close-time decision

  const AntiDetectionError: string := "YouTube blocked the download even with fallback strategy. Try again later with longer cooldown."
  const LocateError: string := "Error locating downloaded file"

  /** What the close handler settles on. `Failed` carries the error text the
      handler writes into the record and the message it rejects with. */
  datatype CloseOutcome =
    | Finished(path: string)
    | RunFallback
    | Failed(written: string, rejection: string)

  /** The close handler after the search. */
  function DecideClose(f: Flags, code: Option<int>, loc: Located): (o: CloseOutcome)
    ensures o.Finished? <==> loc.Found?
    ensures o.Finished? ==> o.path == loc.path
    ensures o == RunFallback <==> loc.NotFound? && code == Some(255)
    ensures o.Failed? ==> o.written != "" && o.rejection != ""
    ensures loc.LocateFailed? ==> o == Failed(LocateError, LocateError)
    ensures loc.NotFound? && code != Some(255) && (code != Some(0) || f.hasError) && f.errorMessage != "" ==>
      o == Failed(f.errorMessage, f.errorMessage)
    ensures loc.NotFound? && code != Some(255) && (code != Some(0) || f.hasError) && f.errorMessage == "" ==>
      o == Failed("Download failed with code " + CodeText(code), "Download failed with code " + CodeText(code))
    ensures loc.NotFound? && code == Some(0) && !f.hasError ==>
      o == Failed("Download seemed successful but file not found", "File not found after download")
  {
    match loc
    case Found(p) => Finished(p)
    case LocateFailed => Failed(LocateError, LocateError)
    case NotFound =>
      if code == Some(255) then RunFallback
      else if code != Some(0) || f.hasError then
        var e := if f.errorMessage != "" then f.errorMessage else "Download failed with code " + CodeText(code);
        Failed(e, e)
      else
        Failed("Download seemed successful but file not found", "File not found after download")
  }

  /** A found file completes the job whatever the exit code and the error
      flag say, even with a merge still pending. */
  lemma CompletionIgnoresExitCode(f: Flags, code: Option<int>, p: string)
    ensures DecideClose(f, code, Found(p)) == Finished(p)
  {
  }

  /** The update the close handler writes for its outcome. */
  function ClosePatch(o: CloseOutcome): (p: Patch)
    ensures o.Finished? ==> p.status == Some(Completed) && p.progress == Some(100.0) && p.filePath == Some(o.path)
    ensures o.Failed? ==> p.status == Some(Error) && p.error == Some(o.written)
    ensures o == RunFallback ==> p == NoChange
  {
    match o
    case Finished(path) => NoChange.(status := Some(Completed), progress := Some(100.0), filePath := Some(path))
    case RunFallback => NoChange
    case Failed(w, _) => NoChange.(status := Some(Error), error := Some(w))
  }

  /** The update startDownload's `.catch` writes for a rejected attempt. */
  function RejectionPatch(message: string): (p: Patch)
    ensures p.status == Some(Error) && p.error.Some? && p.error.value != ""
    ensures message != "" ==> p.error == Some(message)
  {
    NoChange.(status := Some(Error), error := Some(if message != "" then message else "Download failed"))
  }

  /** A failed close leaves the rejection message in the record: for the
      exit-0-without-file case the handler's text is replaced by it. */
  lemma FailedCloseSettles(cur: DownloadProgress, f: Flags, code: Option<int>, loc: Located)
    requires DecideClose(f, code, loc).Failed?
    ensures Merge(Merge(cur, ClosePatch(DecideClose(f, code, loc))), RejectionPatch(DecideClose(f, code, loc).rejection)).error
      == Some(DecideClose(f, code, loc).rejection)
    ensures Merge(Merge(cur, ClosePatch(DecideClose(f, code, loc))), RejectionPatch(DecideClose(f, code, loc).rejection)).status
      == Error
  {
  }

  // ---------------------------------------------------------------------
  // the fallback attempt

  /** The fallback's command words, with the URL it is meant to use. */
  function FallbackCommandParts(request: DownloadRequest, expectedOutputPath: string, url: string): (parts: seq<string>)
    ensures |parts| >= 8 && parts[..3] == ["python", "-m", "yt_dlp"]
    ensures parts[|parts| - 3..] == ["--output", expectedOutputPath, url]
    ensures IsAudioRequest(request.format, request.audioOnly) ==> parts[3..6] == ["--extract-audio", "--audio-format", request.format]
    ensures !IsAudioRequest(request.format, request.audioOnly) ==> parts[3..5] == ["--format", "best"] && |parts| == 8
  {
    ["python", "-m", "yt_dlp"]
    + (if IsAudioRequest(request.format, request.audioOnly) then ["--extract-audio", "--audio-format", request.format]
       else ["--format", "best"])
    + ["--output", expectedOutputPath, url]
  }

  /** The fallback's stdout handler: the raw percentage, not clamped. */
  function FallbackStdoutPatches(output: string): (ps: seq<Patch>)
    ensures |ps| <= 1
    ensures ps != [] ==> ps[0] == NoChange.(progress := FindPercent(output))
    ensures ps != [] <==> FindPercent(output).Some?
  {
    match FindPercent(output)
    case None => []
    case Some(p) => [NoChange.(progress := Some(p))]
  }

  /** The fallback process's end: success needs exit 0 and the expected file. */
  function FallbackClose(errorMessage: string, code: Option<int>, existing: set<string>, expectedOutputPath: string): (r: Result<string, string>)
    ensures r.Success? <==> code == Some(0) && expectedOutputPath in existing
    ensures r.Success? ==> r.value == expectedOutputPath
  {
    if code == Some(0) then
      if expectedOutputPath in existing then Success(expectedOutputPath)
      else Failure("Fallback completed but file not found")
    else Failure(if errorMessage != "" then errorMessage else "Fallback failed with code " + CodeText(code))
  }

  /** How the close handler ends after the fallback settles: a successful
      fallback has already completed the record, any failure becomes the
      anti-detection error. */
  function AfterFallback(r: Result<string, string>): (o: CloseOutcome)
    ensures o.Finished? <==> r.Success?
    ensures r.Failure? ==> o == Failed(AntiDetectionError, AntiDetectionError)
  {
    match r
    case Success(p) => Finished(p)
    case Failure(_) => Failed(AntiDetectionError, AntiDetectionError)
  }

  /** tryFallbackDownload as written: its executor refers to a name that the
      method does not declare, so the executor throws before any process is
      started and the promise rejects at once. */
  function FallbackAsWritten(errorMessage: string, code: Option<int>, existing: set<string>, expectedOutputPath: string): (r: Result<string, string>)
    ensures r.Failure?
  {
    Failure("cleanUrl is not defined")
  }

  /** The fallback can never rescue a download as written, even when the
      fallback process it was meant to start would have succeeded. */
  lemma FallbackNeverRescues(existing: set<string>, expected: string)
    requires expected in existing
    ensures AfterFallback(FallbackClose("", Some(0), existing, expected)) == Finished(expected)
    ensures AfterFallback(FallbackAsWritten("", Some(0), existing, expected)) == Failed(AntiDetectionError, AntiDetectionError)
  {
  }
}
