/** `YtDlpService`: the job registry, the anti-detection clock, the set of
    running processes, and one `DownloadAttempt` per performDownload call
    holding that call's local state while its process reports. Processes,
    timers, the clock, randomness and the filesystem are inputs: a chunk of
    output, a close with its exit code, the time now, the random factor, the
    set of paths that exist and the listing of the output directory. */
module YtDlpServiceModel {
  import opened Wrappers
  import opened JsStrings
  import opened SharedTypes
  import opened Registry
  import opened OutputParser
  import opened YtDlpHelpers
  import opened ProgressMachine

  /** How startDownload schedules performDownload. */
  datatype Launch = LaunchNow | LaunchAfter(delayMs: nat)

  const QueueDelayMs: nat := 5000
  const QueuedFilename: string := "Aguardando na fila..."
  const PreparingFilename: string := "Preparing download..."

  /** The number of jobs already downloading at which a new one is queued. */
  const ConcurrencyLimit: nat := 2

  class YtDlpService {
    var downloads: seq<Entry>
    var lastRequestTime: int
    var requestCount: nat
    var activeProcesses: set<string>
    /** Whether the five-minute sweep interval is still armed. */
    var cleanupTimerArmed: bool

    predicate Valid()
      reads this
    {
      UniqueIds(downloads)
    }

    constructor ()
      ensures Valid()
      ensures downloads == [] && lastRequestTime == 0 && requestCount == 0
      ensures activeProcesses == {} && cleanupTimerArmed
    {
      downloads := [];
      lastRequestTime := 0;
      requestCount := 0;
      activeProcesses := {};
      cleanupTimerArmed := true;
    }

    /** cleanupOldDownloads. */
    method CleanupOldDownloads()
      requires Valid()
      modifies this
      ensures Valid()
      ensures downloads == Sweep(old(downloads))
      ensures lastRequestTime == old(lastRequestTime) && requestCount == old(requestCount)
      ensures activeProcesses == old(activeProcesses) && cleanupTimerArmed == old(cleanupTimerArmed)
    {
      var downloadArray := downloads;
      if |downloadArray| > MaxDownloadsHistory {
        var toKeep := LastN(KeepNonTerminal(downloadArray), MaxDownloadsHistory);
        SweepSpec(downloadArray);
        ReplaceAll(toKeep);
      }
    }

    /** `downloads.clear()`, then `set` for each kept entry in order. */
    method ReplaceAll(toKeep: seq<Entry>)
      requires UniqueIds(toKeep)
      modifies this
      ensures Valid() && downloads == toKeep
      ensures lastRequestTime == old(lastRequestTime) && requestCount == old(requestCount)
      ensures activeProcesses == old(activeProcesses) && cleanupTimerArmed == old(cleanupTimerArmed)
    {
      downloads := [];
      for i := 0 to |toKeep|
        invariant downloads == toKeep[..i]
        invariant lastRequestTime == old(lastRequestTime) && requestCount == old(requestCount)
        invariant activeProcesses == old(activeProcesses) && cleanupTimerArmed == old(cleanupTimerArmed)
      {
        FreshInPrefix(toKeep, i);
        SetFresh(downloads, toKeep[i]);
        downloads := Set(downloads, toKeep[i].id, toKeep[i].job);
        assert toKeep[..i + 1] == toKeep[..i] + [toKeep[i]];
      }
      assert toKeep[..|toKeep|] == toKeep;
    }

    /** calculateCooldown: counts the request, then scales the base interval
        by the band the count falls in and by the random factor. */
    method CalculateCooldown(randomFactor: real) returns (ms: int)
      requires 0.75 <= randomFactor < 1.25
      modifies this
      ensures requestCount == old(requestCount) + 1
      ensures ms == Cooldown(requestCount, randomFactor)
      ensures 6000 * CooldownMultiplier(requestCount) <= ms < 10000 * CooldownMultiplier(requestCount)
      ensures downloads == old(downloads) && lastRequestTime == old(lastRequestTime)
      ensures activeProcesses == old(activeProcesses) && cleanupTimerArmed == old(cleanupTimerArmed)
    {
      requestCount := requestCount + 1;
      var baseInterval := MinRequestInterval;
      if requestCount > 3 {
        baseInterval := MinRequestInterval * 2;
      }
      if requestCount > 6 {
        baseInterval := MinRequestInterval * 3;
      }
      if requestCount > 10 {
        baseInterval := MinRequestInterval * 5;
      }
      ms := (baseInterval as real * randomFactor).Floor;
    }

    /** The read half of performDownload's cool-down: count the request and
        compute what is left to wait from the stamp as it is now. The clock
        is stamped only after the wait, by `StampClock`. */
    method BeginCooldown(now: int, randomFactor: real) returns (waitMs: int)
      requires 0.75 <= randomFactor < 1.25
      modifies this
      ensures requestCount == old(requestCount) + 1
      ensures waitMs == SpacingWait(now - lastRequestTime, Cooldown(requestCount, randomFactor))
      ensures lastRequestTime == old(lastRequestTime)
      ensures downloads == old(downloads) && activeProcesses == old(activeProcesses)
      ensures cleanupTimerArmed == old(cleanupTimerArmed)
    {
      var timeSinceLastRequest := now - lastRequestTime;
      var requiredCooldown := CalculateCooldown(randomFactor);
      waitMs := 0;
      if timeSinceLastRequest < requiredCooldown {
        waitMs := requiredCooldown - timeSinceLastRequest;
      }
    }

    /** `this.lastRequestTime = Date.now()` once a wait is over. */
    method StampClock(t: int)
      modifies this
      ensures lastRequestTime == t
      ensures requestCount == old(requestCount) && downloads == old(downloads)
      ensures activeProcesses == old(activeProcesses) && cleanupTimerArmed == old(cleanupTimerArmed)
    {
      lastRequestTime := t;
    }

    /** One attempt's cool-down with no other attempt in between its read and
        its stamp: wait out the rest of the cool-down, then stamp. Timers are
        taken to fire on time, so the stamp is `now` plus the wait. Read as
        one step, this is also the corrected cool-down that reserves its
        slot before waiting. */
    method AwaitCooldown(now: int, randomFactor: real) returns (waitMs: int)
      requires 0.75 <= randomFactor < 1.25
      modifies this
      ensures requestCount == old(requestCount) + 1
      ensures waitMs == SpacingWait(now - old(lastRequestTime), Cooldown(requestCount, randomFactor))
      ensures lastRequestTime == now + waitMs
      ensures lastRequestTime - old(lastRequestTime) >= Cooldown(requestCount, randomFactor)
      ensures lastRequestTime >= now
      ensures downloads == old(downloads) && activeProcesses == old(activeProcesses)
      ensures cleanupTimerArmed == old(cleanupTimerArmed)
    {
      waitMs := BeginCooldown(now, randomFactor);
      StampClock(now + waitMs);
    }

    /** Two performDownload calls as the event loop runs them when the
        second is launched at `t2`, while the first, launched at `t1`, is
        still in its cool-down wait: both read the stamp before either wait
        is over. `start1` and `start2` are when each goes on; each timer
        stamps the clock when it fires, so the two stamps are written in the
        order the timers fire and the later start is the one that stays. */
    method OverlappingCooldowns(t1: int, t2: int, f1: real, f2: real) returns (start1: int, start2: int)
      requires 0.75 <= f1 < 1.25 && 0.75 <= f2 < 1.25
      requires t1 <= t2 < t1 + SpacingWait(t1 - lastRequestTime, Cooldown(requestCount + 1, f1))
      modifies this
      ensures start1 == old(lastRequestTime) + Cooldown(old(requestCount) + 1, f1)
      ensures start2 == t2 + SpacingWait(t2 - old(lastRequestTime), Cooldown(old(requestCount) + 2, f2))
      ensures t2 - old(lastRequestTime) < Cooldown(old(requestCount) + 2, f2) ==>
        start2 - start1 == Cooldown(old(requestCount) + 2, f2) - Cooldown(old(requestCount) + 1, f1)
      ensures start2 - start1 < Cooldown(old(requestCount) + 2, f2)
      ensures requestCount == old(requestCount) + 2
      ensures lastRequestTime == if start1 <= start2 then start2 else start1
      ensures downloads == old(downloads) && activeProcesses == old(activeProcesses)
      ensures cleanupTimerArmed == old(cleanupTimerArmed)
    {
      var w1 := BeginCooldown(t1, f1);
      var w2 := BeginCooldown(t2, f2);
      start1 := t1 + w1;
      start2 := t2 + w2;
      if start1 <= start2 {
        StampClock(start1);
        StampClock(start2);
      } else {
        StampClock(start2);
        StampClock(start1);
      }
    }

    /** The same two launches with the slot reserved before the wait: the
        second goes on at least its own cool-down after the first. */
    method ReservedCooldowns(t1: int, t2: int, f1: real, f2: real) returns (start1: int, start2: int)
      requires 0.75 <= f1 < 1.25 && 0.75 <= f2 < 1.25
      requires t1 <= t2
      modifies this
      ensures start1 >= t1 && start2 >= t2
      ensures start2 - start1 >= Cooldown(old(requestCount) + 2, f2)
      ensures requestCount == old(requestCount) + 2 && lastRequestTime == start2
      ensures downloads == old(downloads) && activeProcesses == old(activeProcesses)
      ensures cleanupTimerArmed == old(cleanupTimerArmed)
    {
      var w1 := AwaitCooldown(t1, f1);
      start1 := t1 + w1;
      var w2 := AwaitCooldown(t2, f2);
      start2 := t2 + w2;
    }

    /** The start of getVideoInfo: the same clock, with the fixed interval
        and without counting a request. */
    method AwaitInfoSlot(now: int) returns (waitMs: int)
      modifies this
      ensures waitMs == SpacingWait(now - old(lastRequestTime), MinRequestInterval)
      ensures lastRequestTime == now + waitMs
      ensures lastRequestTime - old(lastRequestTime) >= MinRequestInterval
      ensures downloads == old(downloads) && requestCount == old(requestCount)
      ensures activeProcesses == old(activeProcesses) && cleanupTimerArmed == old(cleanupTimerArmed)
    {
      waitMs := 0;
      if now - lastRequestTime < MinRequestInterval {
        waitMs := MinRequestInterval - (now - lastRequestTime);
      }
      lastRequestTime := now + waitMs;
    }

    /** performDownload's two waits in a row: because the info lookup shares
        the clock that the cool-down has just stamped, it waits again for the
        full interval less the time spent in between. */
    method AwaitBeforeInfo(now: int, randomFactor: real, setupMs: nat) returns (cooldownWaitMs: int, infoWaitMs: int)
      requires 0.75 <= randomFactor < 1.25
      modifies this
      ensures cooldownWaitMs == SpacingWait(now - old(lastRequestTime), Cooldown(old(requestCount) + 1, randomFactor))
      ensures infoWaitMs == SpacingWait(setupMs, MinRequestInterval)
      ensures setupMs < MinRequestInterval ==> infoWaitMs == MinRequestInterval - setupMs
      ensures requestCount == old(requestCount) + 1
      ensures lastRequestTime == now + cooldownWaitMs + setupMs + infoWaitMs
      ensures downloads == old(downloads) && activeProcesses == old(activeProcesses)
      ensures cleanupTimerArmed == old(cleanupTimerArmed)
    {
      cooldownWaitMs := AwaitCooldown(now, randomFactor);
      infoWaitMs := AwaitInfoSlot(lastRequestTime + setupMs);
    }

    /** startDownload: admit the job at once while fewer than two are
        downloading, otherwise queue it for a later launch. */
    method StartDownload(request: DownloadRequest, downloadId: string) returns (id: string, launch: Launch)
      requires Valid()
      modifies this
      ensures Valid() && id == downloadId
      ensures CountStatus(old(downloads), Downloading) >= ConcurrencyLimit ==>
        downloads == Set(old(downloads), id, NewJob(id, Queued, QueuedFilename)) && launch == LaunchAfter(QueueDelayMs)
      ensures CountStatus(old(downloads), Downloading) < ConcurrencyLimit ==>
        downloads == Set(old(downloads), id, NewJob(id, Downloading, PreparingFilename)) && launch == LaunchNow
      ensures lastRequestTime == old(lastRequestTime) && requestCount == old(requestCount)
      ensures activeProcesses == old(activeProcesses) && cleanupTimerArmed == old(cleanupTimerArmed)
    {
      id := downloadId;
      var activeDownloads := CountStatus(downloads, Downloading);
      if activeDownloads >= ConcurrencyLimit {
        downloads := Set(downloads, id, NewJob(id, Queued, QueuedFilename));
        launch := LaunchAfter(QueueDelayMs);
        return;
      }
      downloads := Set(downloads, id, NewJob(id, Downloading, PreparingFilename));
      launch := LaunchNow;
    }

    /** performDownload's `downloads.set` once the file name is known: the
        record is replaced, not merged. */
    method RecordAttempt(downloadId: string, filename: string)
      requires Valid()
      modifies this
      ensures Valid()
      ensures downloads == Set(old(downloads), downloadId, NewJob(downloadId, Downloading, filename))
      ensures lastRequestTime == old(lastRequestTime) && requestCount == old(requestCount)
      ensures activeProcesses == old(activeProcesses) && cleanupTimerArmed == old(cleanupTimerArmed)
    {
      downloads := Set(downloads, downloadId, NewJob(downloadId, Downloading, filename));
    }

    /** updateDownloadProgress: `{ ...current, ...update }` for a present id. */
    method UpdateDownloadProgress(downloadId: string, update: Patch)
      requires Valid()
      modifies this
      ensures Valid()
      ensures downloads == Update(old(downloads), downloadId, update)
      ensures lastRequestTime == old(lastRequestTime) && requestCount == old(requestCount)
      ensures activeProcesses == old(activeProcesses) && cleanupTimerArmed == old(cleanupTimerArmed)
    {
      UpdateSpec(downloads, downloadId, update);
      var current := Get(downloads, downloadId);
      if current.Some? {
        downloads := Set(downloads, downloadId, Merge(current.value, update));
      }
    }

    /** startDownload's `.catch` on a rejected performDownload. */
    method RecordRejection(downloadId: string, message: string)
      requires Valid()
      modifies this
      ensures Valid()
      ensures downloads == Update(old(downloads), downloadId, RejectionPatch(message))
      ensures lastRequestTime == old(lastRequestTime) && requestCount == old(requestCount)
      ensures activeProcesses == old(activeProcesses) && cleanupTimerArmed == old(cleanupTimerArmed)
    {
      UpdateDownloadProgress(downloadId, RejectionPatch(message));
    }

    /** `activeProcesses.set(downloadId, childProcess)`. */
    method ProcessStarted(downloadId: string)
      modifies this
      ensures activeProcesses == old(activeProcesses) + {downloadId}
      ensures downloads == old(downloads) && lastRequestTime == old(lastRequestTime)
      ensures requestCount == old(requestCount) && cleanupTimerArmed == old(cleanupTimerArmed)
    {
      activeProcesses := activeProcesses + {downloadId};
    }

    /** `activeProcesses.delete(downloadId)`. */
    method ProcessEnded(downloadId: string)
      modifies this
      ensures activeProcesses == old(activeProcesses) - {downloadId}
      ensures downloads == old(downloads) && lastRequestTime == old(lastRequestTime)
      ensures requestCount == old(requestCount) && cleanupTimerArmed == old(cleanupTimerArmed)
    {
      activeProcesses := activeProcesses - {downloadId};
    }

    /** getDownloadProgress: the record, or null for an unknown id. */
    function GetDownloadProgress(downloadId: string): (r: Option<DownloadProgress>)
      reads this
      ensures r.Some? <==> downloadId in Ids(downloads)
      ensures Valid() ==> forall k :: 0 <= k < |downloads| && downloads[k].id == downloadId ==> r == Some(downloads[k].job)
    {
      Get(downloads, downloadId)
    }

    /** getActiveDownloadsCount: the number of processes still running. */
    function GetActiveDownloadsCount(): (n: nat)
      reads this
      ensures n == |activeProcesses|
      ensures n == 0 <==> activeProcesses == {}
    {
      |activeProcesses|
    }

    /** What downloadVideo returns once its attempt has settled: the
        recorded file path, or 'download.mp4' when there is none. */
    function DownloadedFilePath(downloadId: string): (p: string)
      reads this
      ensures p != ""
      ensures Get(downloads, downloadId).Some? && Get(downloads, downloadId).value.filePath.Some?
              && Get(downloads, downloadId).value.filePath.value != "" ==>
        p == Get(downloads, downloadId).value.filePath.value
      ensures !(Get(downloads, downloadId).Some? && Get(downloads, downloadId).value.filePath.Some?
                && Get(downloads, downloadId).value.filePath.value != "") ==>
        p == "download.mp4"
    {
      match Get(downloads, downloadId)
      case Some(job) =>
        if job.filePath.Some? && job.filePath.value != "" then job.filePath.value else "download.mp4"
      case None => "download.mp4"
    }

    /** buildYtDlpArgsWithFilename: the argument list, pushed group by group.
        The output directory and file name are not used. */
    method BuildYtDlpArgsWithFilename(request: DownloadRequest, outputDir: string, filename: string) returns (args: seq<string>)
      ensures args == BuildYtDlpArgs(request)
    {
      args := [];
      if IsAudioRequest(request.format, request.audioOnly) {
        args := args + ["--extract-audio", "--audio-format", request.format];
      } else {
        args := args + ["--format", FormatSelector(request.quality)];
        if request.format != "" && request.format !in AudioFormats {
          args := args + ["--merge-output-format", request.format];
        } else if request.format == "" {
          args := args + ["--merge-output-format", "mp4"];
        }
      }
      args := args + ["--progress", "--newline", "--no-warnings"];
    }

    /** cleanup: disarm the sweep, signal every running process once, then
        forget all processes and all jobs. */
    method Cleanup() returns (signalled: seq<string>)
      modifies this
      ensures !cleanupTimerArmed && activeProcesses == {} && downloads == []
      ensures forall id :: id in signalled <==> id in old(activeProcesses)
      ensures |signalled| == |old(activeProcesses)|
      ensures lastRequestTime == old(lastRequestTime) && requestCount == old(requestCount)
    {
      cleanupTimerArmed := false;
      signalled := [];
      var remaining := activeProcesses;
      while remaining != {}
        invariant remaining <= activeProcesses
        invariant forall id :: id in signalled <==> id in activeProcesses && id !in remaining
        invariant |signalled| + |remaining| == |activeProcesses|
        decreases |remaining|
      {
        var id :| id in remaining;
        signalled := signalled + [id];
        remaining := remaining - {id};
      }
      activeProcesses := {};
      downloads := [];
    }
  }

  /** The queued path re-checks nothing when it launches: a queued job
      admitted while two others download becomes the third one. */
  lemma QueuedLaunchExceedsLimit(es: seq<Entry>, id: string, filename: string)
    requires UniqueIds(es)
    requires CountStatus(es, Downloading) >= ConcurrencyLimit
    requires Get(es, id).Some? && Get(es, id).value.status == Queued
    ensures CountStatus(Set(es, id, NewJob(id, Downloading, filename)), Downloading) == CountStatus(es, Downloading) + 1
    ensures CountStatus(Set(es, id, NewJob(id, Downloading, filename)), Downloading) > ConcurrencyLimit
  {
    CountStatusAfterSet(es, id, NewJob(id, Downloading, filename), Downloading);
  }

  /** Admission adds exactly one record for a new id and leaves every other
      record where and as it was. */
  lemma AdmissionAddsOne(es: seq<Entry>, id: string, status: Status, filename: string)
    requires UniqueIds(es) && id !in Ids(es)
    ensures Set(es, id, NewJob(id, status, filename)) == es + [Entry(id, NewJob(id, status, filename))]
    ensures CountStatus(Set(es, id, NewJob(id, status, filename)), Downloading)
         == CountStatus(es, Downloading) + (if status == Downloading then 1 else 0)
  {
    CountStatusAppend(es, Entry(id, NewJob(id, status, filename)), Downloading);
  }

  /** One performDownload call from the moment its process is started: the
      call's `let` variables and the names it computed. */
  class DownloadAttempt {
    const service: YtDlpService
    const downloadId: string
    const outputDir: string
    const sanitizedTitle: string
    const fullPath: string
    const filename: string
    const command: string
    var flags: Flags

    /** performDownload after the video information is back: name the file,
        build the command and set up the handlers' local state. */
    constructor (service: YtDlpService, request: DownloadRequest, downloadId: string, downloadsPath: string,
                 title: string, cleanUrl: string)
      ensures this.service == service && this.downloadId == downloadId
      ensures outputDir == OutputDir(request, downloadsPath)
      ensures sanitizedTitle == SanitizeFilename(title)
      ensures filename == sanitizedTitle + "." + GetFileExtension(request.format, request.audioOnly)
      ensures fullPath == PathJoin(outputDir, filename)
      ensures command == DownloadCommandLine(fullPath, BuildYtDlpArgs(request), cleanUrl)
      ensures flags == InitialFlags(fullPath)
    {
      var dir := OutputDir(request, downloadsPath);
      var name := SanitizeFilename(title);
      var extension := GetFileExtension(request.format, request.audioOnly);
      var file := name + "." + extension;
      var path := PathJoin(dir, file);
      var args := service.BuildYtDlpArgsWithFilename(request, dir, file);
      this.service := service;
      this.downloadId := downloadId;
      this.outputDir := dir;
      this.sanitizedTitle := name;
      this.filename := file;
      this.fullPath := path;
      this.command := DownloadCommandLine(path, args, cleanUrl);
      new;
      flags := InitialFlags(fullPath);
    }

    /** The job record is reset with the real file name, and once the
        process runs its id is registered. */
    method Register()
      requires service.Valid()
      modifies service
      ensures service.Valid()
      ensures service.downloads == Set(old(service.downloads), downloadId, NewJob(downloadId, Downloading, filename))
      ensures service.activeProcesses == old(service.activeProcesses) + {downloadId}
      ensures service.lastRequestTime == old(service.lastRequestTime) && service.requestCount == old(service.requestCount)
      ensures service.cleanupTimerArmed == old(service.cleanupTimerArmed)
    {
      service.RecordAttempt(downloadId, filename);
      service.ProcessStarted(downloadId);
    }

    /** The stdout handler for one chunk, update by update. */
    method OnStdout(output: string)
      requires service.Valid()
      modifies this, service
      ensures service.Valid()
      ensures flags == AfterStdout(old(flags), ParseChunk(output))
      ensures service.downloads == UpdateAll(old(service.downloads), downloadId, StdoutPatches(old(flags), ParseChunk(output)))
      ensures service.activeProcesses == old(service.activeProcesses)
      ensures service.lastRequestTime == old(service.lastRequestTime) && service.requestCount == old(service.requestCount)
      ensures service.cleanupTimerArmed == old(service.cleanupTimerArmed)
    {
      OnChunk(ParseChunk(output));
    }

    method OnChunk(c: ChunkInfo)
      requires service.Valid()
      modifies this, service
      ensures service.Valid()
      ensures flags == AfterStdout(old(flags), c)
      ensures service.downloads == UpdateAll(old(service.downloads), downloadId, StdoutPatches(old(flags), c))
      ensures service.activeProcesses == old(service.activeProcesses)
      ensures service.lastRequestTime == old(service.lastRequestTime) && service.requestCount == old(service.requestCount)
      ensures service.cleanupTimerArmed == old(service.cleanupTimerArmed)
    {
      ghost var es0 := service.downloads;
      MergeStage(c);
      ghost var es1 := service.downloads;
      ProgressStage(c);
      ghost var es2 := service.downloads;
      RateStage(c);
      PathStage(c);
      UpdateAllAppend(es0, downloadId, MergePatches(c), PercentPatches(c, flags.isMerging, flags.mergeComplete));
      UpdateAllAppend(es0, downloadId, MergePatches(c) + PercentPatches(c, flags.isMerging, flags.mergeComplete), RatePatches(c));
    }

    /** The merge marker, then the merge-completion markers. */
    method MergeStage(c: ChunkInfo)
      requires service.Valid()
      modifies this, service
      ensures service.Valid()
      ensures flags == old(flags).(isMerging := old(flags).isMerging || c.mergeStart,
                                   mergeComplete := old(flags).mergeComplete || (c.mergeDone && (old(flags).isMerging || c.mergeStart)))
      ensures service.downloads == UpdateAll(old(service.downloads), downloadId, MergePatches(c))
      ensures service.activeProcesses == old(service.activeProcesses)
      ensures service.lastRequestTime == old(service.lastRequestTime) && service.requestCount == old(service.requestCount)
      ensures service.cleanupTimerArmed == old(service.cleanupTimerArmed)
    {
      if c.mergeStart {
        flags := flags.(isMerging := true);
        Apply(service.downloads, [], NoChange.(status := Some(Downloading), progress := Some(99.0)));
      }
      if c.mergeDone {
        if flags.isMerging {
          flags := flags.(mergeComplete := true);
        }
      }
    }

    /** The percentage, clamped while a merge is pending. */
    method ProgressStage(c: ChunkInfo)
      requires service.Valid()
      modifies this, service
      ensures service.Valid()
      ensures flags == old(flags).(downloadComplete := old(flags).downloadComplete || (c.percent.Some? && c.percent.value >= 100.0))
      ensures service.downloads == UpdateAll(old(service.downloads), downloadId, PercentPatches(c, flags.isMerging, flags.mergeComplete))
      ensures service.activeProcesses == old(service.activeProcesses)
      ensures service.lastRequestTime == old(service.lastRequestTime) && service.requestCount == old(service.requestCount)
      ensures service.cleanupTimerArmed == old(service.cleanupTimerArmed)
    {
      if c.percent.Some? {
        var progress := c.percent.value;
        if progress >= 100.0 {
          flags := flags.(downloadComplete := true);
          if !flags.isMerging || flags.mergeComplete {
            Apply(service.downloads, [], NoChange.(progress := Some(100.0)));
          } else {
            Apply(service.downloads, [], NoChange.(progress := Some(99.0)));
          }
        } else {
          Apply(service.downloads, [], NoChange.(progress := Some(progress)));
        }
      }
    }

    /** The speed and the ETA. */
    method RateStage(c: ChunkInfo)
      requires service.Valid()
      modifies service
      ensures service.Valid()
      ensures service.downloads == UpdateAll(old(service.downloads), downloadId, RatePatches(c))
      ensures service.activeProcesses == old(service.activeProcesses)
      ensures service.lastRequestTime == old(service.lastRequestTime) && service.requestCount == old(service.requestCount)
      ensures service.cleanupTimerArmed == old(service.cleanupTimerArmed)
    {
      ghost var start := service.downloads;
      ghost var applied: seq<Patch> := [];
      if c.speed.Some? {
        Apply(start, applied, NoChange.(speed := c.speed));
        applied := applied + [NoChange.(speed := c.speed)];
      }
      if c.eta.Some? {
        Apply(start, applied, NoChange.(eta := c.eta));
        applied := applied + [NoChange.(eta := c.eta)];
      }
      assert applied == RatePatches(c);
    }

    /** The destination line, then the merge target, which wins. */
    method PathStage(c: ChunkInfo)
      modifies this
      ensures flags == old(flags).(outputFilePath :=
        if c.mergeTarget.Some? then Trim(c.mergeTarget.value)
        else if c.destination.Some? then Trim(c.destination.value)
        else old(flags).outputFilePath)
    {
      if c.destination.Some? {
        flags := flags.(outputFilePath := Trim(c.destination.value));
      }
      if c.mergeTarget.Some? {
        flags := flags.(outputFilePath := Trim(c.mergeTarget.value));
      }
    }

    /** One updateDownloadProgress call of a handler, tracked against the
        sequence of updates made so far. */
    method Apply(ghost start: seq<Entry>, ghost applied: seq<Patch>, p: Patch)
      requires service.Valid()
      requires service.downloads == UpdateAll(start, downloadId, applied)
      modifies service
      ensures service.Valid()
      ensures service.downloads == UpdateAll(start, downloadId, applied + [p])
      ensures service.activeProcesses == old(service.activeProcesses)
      ensures service.lastRequestTime == old(service.lastRequestTime) && service.requestCount == old(service.requestCount)
      ensures service.cleanupTimerArmed == old(service.cleanupTimerArmed)
    {
      service.UpdateDownloadProgress(downloadId, p);
      UpdateAllSnoc(start, downloadId, applied, p);
    }

    /** The stderr handler for one chunk. */
    method OnStderr(chunk: string)
      modifies this
      ensures flags == AfterStderr(old(flags), chunk)
    {
      if Includes(chunk, "ERROR") || Includes(chunk, "error") {
        flags := flags.(hasError := true, errorMessage := chunk);
      }
    }

    /** The close handler's search: the candidate paths in order, then the
        output directory's listing. */
    method LocateOutputFile(existing: set<string>, listing: Option<seq<string>>) returns (loc: Located)
      ensures loc == Locate(flags.outputFilePath, fullPath, outputDir, sanitizedTitle, existing, listing)
    {
      var finalFilePath := TryCandidatePaths(existing);
      if finalFilePath != "" {
        return Found(finalFilePath);
      }
      if listing.None? {
        return LocateFailed;
      }
      var expectedExt := ExtName(fullPath);
      var hit := SearchListing(listing.value, expectedExt, Take(sanitizedTitle, 10), existing);
      if hit.Some? {
        return Found(hit.value);
      }
      return NotFound;
    }

    /** The first of outputFilePath and fullPath that exists, or "". */
    method TryCandidatePaths(existing: set<string>) returns (finalFilePath: string)
      ensures finalFilePath == ObviousPath(flags.outputFilePath, fullPath, existing).GetOr("")
    {
      var possiblePaths := [flags.outputFilePath, fullPath];
      finalFilePath := "";
      var i := 0;
      var found := false;
      while i < |possiblePaths| && !found
        invariant 0 <= i <= |possiblePaths|
        invariant !found ==> finalFilePath == "" && forall k :: 0 <= k < i ==> possiblePaths[k] !in existing
        invariant found ==> i >= 1 && finalFilePath == possiblePaths[i - 1] && possiblePaths[i - 1] in existing
                            && forall k :: 0 <= k < i - 1 ==> possiblePaths[k] !in existing
      {
        if possiblePaths[i] in existing {
          finalFilePath := possiblePaths[i];
          found := true;
        }
        i := i + 1;
      }
      assert possiblePaths[0] == flags.outputFilePath && possiblePaths[1] == fullPath;
      if found {
        assert i == 1 || i == 2;
      } else {
        assert i == 2;
      }
    }

    /** The directory search over the listed names, in listing order. */
    method SearchListing(files: seq<string>, expectedExt: string, titlePrefix: string, existing: set<string>)
      returns (hit: Option<string>)
      ensures hit == SearchDirectory(files, outputDir, expectedExt, titlePrefix, existing)
    {
      var j := 0;
      while j < |files|
        invariant 0 <= j <= |files|
        invariant FirstHit(files, 0, outputDir, expectedExt, titlePrefix, existing)
               == FirstHit(files, j, outputDir, expectedExt, titlePrefix, existing)
      {
        if LooksLikeOutput(files[j], expectedExt, titlePrefix) {
          var potentialPath := PathJoin(outputDir, files[j]);
          if potentialPath in existing {
            return Some(potentialPath);
          }
        }
        j := j + 1;
      }
      return None;
    }

    /** The close handler, up to the point where it resolves, rejects or
        hands over to the fallback. */
    method OnClose(code: Option<int>, existing: set<string>, listing: Option<seq<string>>) returns (outcome: CloseOutcome)
      requires service.Valid()
      modifies service
      ensures service.Valid()
      ensures outcome == DecideClose(flags, code, Locate(flags.outputFilePath, fullPath, outputDir, sanitizedTitle, existing, listing))
      ensures service.activeProcesses == old(service.activeProcesses) - {downloadId}
      ensures service.downloads == Update(old(service.downloads), downloadId, ClosePatch(outcome))
      ensures service.lastRequestTime == old(service.lastRequestTime) && service.requestCount == old(service.requestCount)
      ensures service.cleanupTimerArmed == old(service.cleanupTimerArmed)
    {
      service.ProcessEnded(downloadId);
      var loc := LocateOutputFile(existing, listing);
      match loc {
        case Found(p) =>
          outcome := Finished(p);
        case LocateFailed =>
          outcome := Failed(LocateError, LocateError);
        case NotFound =>
          if code == Some(255) {
            outcome := RunFallback;
          } else if code != Some(0) || flags.hasError {
            var finalError := if flags.errorMessage != "" then flags.errorMessage else "Download failed with code " + CodeText(code);
            outcome := Failed(finalError, finalError);
          } else {
            outcome := Failed("Download seemed successful but file not found", "File not found after download");
          }
      }
      if outcome != RunFallback {
        service.UpdateDownloadProgress(downloadId, ClosePatch(outcome));
      } else {
        UpdateSpec(service.downloads, downloadId, NoChange);
        NoChangeUpdate(service.downloads, downloadId);
      }
    }

    /** The 'error' event of the process: it could not be started. Returns
        the message the call rejects with. */
    method OnProcessError(message: string) returns (rejection: string)
      requires service.Valid()
      modifies service
      ensures service.Valid()
      ensures rejection == message
      ensures service.activeProcesses == old(service.activeProcesses) - {downloadId}
      ensures service.downloads == Update(old(service.downloads), downloadId,
        NoChange.(status := Some(Error), error := Some("Failed to start download: " + message)))
      ensures service.lastRequestTime == old(service.lastRequestTime) && service.requestCount == old(service.requestCount)
      ensures service.cleanupTimerArmed == old(service.cleanupTimerArmed)
    {
      service.ProcessEnded(downloadId);
      service.UpdateDownloadProgress(downloadId, NoChange.(status := Some(Error), error := Some("Failed to start download: " + message)));
      rejection := message;
    }

    /** The fallback's stdout handler for one chunk. */
    method OnFallbackStdout(output: string)
      requires service.Valid()
      modifies service
      ensures service.Valid()
      ensures service.downloads == UpdateAll(old(service.downloads), downloadId, FallbackStdoutPatches(output))
      ensures service.activeProcesses == old(service.activeProcesses)
      ensures service.lastRequestTime == old(service.lastRequestTime) && service.requestCount == old(service.requestCount)
      ensures service.cleanupTimerArmed == old(service.cleanupTimerArmed)
    {
      var progressMatch := FindPercent(output);
      if progressMatch.Some? {
        service.UpdateDownloadProgress(downloadId, NoChange.(progress := Some(progressMatch.value)));
        assert FallbackStdoutPatches(output) == [NoChange.(progress := Some(progressMatch.value))];
        assert FallbackStdoutPatches(output)[1..] == [];
      }
    }

    /** The close handler once the fallback has settled with `r`: success has
        completed the record, any failure writes the anti-detection error. */
    method ConcludeFallback(r: Result<string, string>) returns (outcome: CloseOutcome)
      requires service.Valid()
      modifies service
      ensures service.Valid()
      ensures outcome == AfterFallback(r)
      ensures service.downloads == Update(old(service.downloads), downloadId, ClosePatch(outcome))
      ensures service.activeProcesses == old(service.activeProcesses)
      ensures service.lastRequestTime == old(service.lastRequestTime) && service.requestCount == old(service.requestCount)
      ensures service.cleanupTimerArmed == old(service.cleanupTimerArmed)
    {
      match r {
        case Success(p) =>
          outcome := Finished(p);
        case Failure(_) =>
          outcome := Failed(AntiDetectionError, AntiDetectionError);
      }
      service.UpdateDownloadProgress(downloadId, ClosePatch(outcome));
    }
  }

  /** Updating with an empty patch changes nothing. */
  lemma NoChangeUpdate(es: seq<Entry>, id: string)
    requires UniqueIds(es)
    ensures Update(es, id, NoChange) == es
  {
    UpdateSpec(es, id, NoChange);
    assert forall k :: 0 <= k < |es| && es[k].id == id ==> Merge(es[k].job, NoChange) == es[k].job;
  }
}
