# youtube_download, modelled in Dafny

A model of the core of a YouTube download application: a backend service
that drives `yt-dlp` as a child process, the HTTP handlers in front of it,
the frontend's download store, the port set-up script and the duration text
of the video card.

The backend service (`YtDlpService`) keeps:

- an insertion-ordered registry of jobs, keyed by download id;
- a request counter and the time of the last request. These drive an
  escalating, randomised cool-down between downloads.
- the set of ids whose process is still running.

A download is admitted at once while fewer than two jobs are downloading,
and queued otherwise. Its process's stdout is parsed chunk by chunk, which
updates progress, speed, ETA, a merge flag and the output path. An error
chunk on stderr is remembered. When the process closes, the service
searches for the file it produced. It then decides between completion, a
single fallback attempt (exit code 255) and an error text. A periodic sweep
bounds the registry to ten non-terminal jobs.

The model is split into modules that follow the program:

- `wrappers.dfy`: `Option` and `Result`.
- `js_strings.dfy`: the JavaScript string built-ins the code relies on:
  `includes`, `trim` with ECMAScript white space, `toString` of numbers,
  `replace` of the first match, ASCII case mapping and `join`.
- `shared_types.dfy`: the shared record types. `Partial<DownloadProgress>`
  is a `Patch` and `{ ...current, ...update }` is `Merge`.
- `registry.dfy`: a JavaScript `Map` as a sequence of entries. `set` on a
  present key keeps its position. Also `delete`, the status count and the
  retention sweep.
- `output_parser.dfy`: the regular expressions of the stdout handler, each
  as a recogniser over the chunk.
- `ytdlp_helpers.dfy`: `sanitizeFilename`, `getFileExtension`, the argument
  builder, the command lines, `analyzeExitCode`, the YouTube-URL
  expression, the metadata lookup's outcome, the cool-down arithmetic and
  `path.join`/`path.extname`.
- `progress_machine.dfy`: the per-download local state (`isMerging`,
  `mergeComplete`, `outputFilePath`, `hasError`, `errorMessage`). It covers
  the updates each stdout chunk makes, the stderr capture, the file search
  and the close-time decision, and the fallback.
- `ytdlp_service.dfy`: the class `YtDlpService` with its fields and
  methods, and the class `DownloadAttempt`. `DownloadAttempt` holds one
  `performDownload` call's local variables and its event handlers. Each
  handler is a method proved against the functions of `progress_machine.dfy`.
- `download_controller.dfy`: the validation of the HTTP handlers, the
  format lists and the lazily created service (class `Controller`).
- `download_store.dfy`: the frontend store as a class whose actions replace
  its fields.
- `configure_ports.dfy`: `validatePorts` and `createEnvContent`.
- `video_info.dfy`: `formatDuration`, with a parser that reads its text
  back.

Timers, child processes, the file system and randomness are inputs.

- A stdout or stderr chunk is a method call.
- A close is a call carrying the exit code. It is `None` when Node reports
  `null` after a signal.
- The paths `fs.access` accepts are a set `existing`.
- A directory listing is `Option<seq<string>>`, `None` when `readdir`
  throws.
- `Math.random()` is passed in as a factor in [0.75, 1.25).
- `Date.now()` is passed in as `now`.
- `cleanYoutubeUrl`, `getDownloadsPath` and the generated id are parameters.

Where the comments and the code disagree, the model follows the code:

- The cool-down multipliers are 1, 2, 3 and 5 (8, 16, 24 and 40 seconds
  before the random factor), not the 20/30/50 seconds the comments give.
- The sweep can evict jobs that are still downloading or queued.
- A found file completes the job whatever the exit code.
- `errorMessage` holds the latest error chunk and is not accumulated.
- The queued path launches without re-checking the number of running
  downloads.

## Model

| member | source | states |
|---|---|---|
| Registry.Get | apps/backend/src/services/ytdlp.service.ts:670-672 | `Map.get`: a record exists exactly for a present key, and it is that key's entry |
| Registry.Set | apps/backend/src/services/ytdlp.service.ts:377-382 | `Map.set` appends a fresh key and keeps the position of a present one. It keeps every other key's record and never repeats a key |
| Registry.Remove | apps/frontend/src/stores/download.ts:77-82 | `Map.delete` keeps exactly the entries with other keys, and the key is gone |
| Registry.RemoveSpec | apps/frontend/src/stores/download.ts:77-82 | After a delete the key reads as absent, every other key reads as before, and no key repeats |
| Registry.RemoveAt | apps/frontend/src/stores/download.ts:77-82 | With unique keys, deleting the key at position k gives the entries before k followed by those after it, in order |
| Registry.UpdateSpec | apps/backend/src/services/ytdlp.service.ts:719-724 | updateDownloadProgress merges the patch into the entry for the id in place. Every other entry and the key order are unchanged, and an absent id changes nothing |
| Registry.Update | apps/backend/src/services/ytdlp.service.ts:719-724 | The key order is unchanged, and an absent id leaves the registry alone |
| Registry.UpdateAllSpec | apps/backend/src/services/ytdlp.service.ts:426-485 | Any run of updates for one id leaves every other entry and the key order as they were |
| Registry.UpdateAllAppend | apps/backend/src/services/ytdlp.service.ts:426-485 | Updates applied in two runs equal the same updates in one run |
| Registry.CountStatusAfterSet | apps/backend/src/services/ytdlp.service.ts:299-300 | How one `set` moves the count of a status: the replaced record leaves, the new one enters |
| Registry.KeepNonTerminal | apps/backend/src/services/ytdlp.service.ts:31-32 | The filter keeps exactly the entries that are neither completed nor error |
| Registry.LastN | apps/backend/src/services/ytdlp.service.ts:33 | `slice(-n)` is the last n entries, or all of them when there are fewer |
| Registry.LastNonTerminalAreSurvivors | apps/backend/src/services/ytdlp.service.ts:31-33 | filter-then-slice equals an independent recursive description of which entries survive |
| Registry.SweepSpec | apps/backend/src/services/ytdlp.service.ts:26-41 | Ten or fewer entries are left alone. More are cut to at most ten non-terminal entries taken from the original, in order. Keys stay unique |
| Registry.Sweep | apps/backend/src/services/ytdlp.service.ts:26-41 | The sweep never grows the registry. Past ten entries it leaves at most ten, none of them completed or failed |
| Registry.SweepCanEvictInProgress | apps/backend/src/services/ytdlp.service.ts:30-33 | Eleven downloading jobs lose the oldest one, though it is still running |
| Registry.NonTerminalKept | apps/backend/src/services/ytdlp.service.ts:32 | A registry without terminal jobs passes the filter unchanged |
| SharedTypes.NewJob | apps/backend/src/services/ytdlp.service.ts:303-308 | A fresh record has the given status, progress 0, the display name and no error or path |
| SharedTypes.MergeLaws | apps/backend/src/services/ytdlp.service.ts:722 | `{ ...current, ...update }`: an empty patch is the identity, a repeated patch changes nothing, two patches compose into one, and the id is kept |
| OutputParser.FindPercent | apps/backend/src/services/ytdlp.service.ts:449-451 | A percentage is read only from a chunk that holds a `%`, and it is never negative |
| OutputParser.PercentOfDigits | apps/backend/src/services/ytdlp.service.ts:449-451 | A digit run followed by `%`, with no digit before it, reads as the run's decimal value |
| OutputParser.PercentOfDecimal | apps/backend/src/services/ytdlp.service.ts:449-451 | `d.f%` with no digit before it reads as d plus f over ten to the length of f |
| OutputParser.PercentScenario | apps/backend/src/services/ytdlp.service.ts:449-451 | The chunk `45.2%` reads as 45.2 |
| OutputParser.FindSpeed | apps/backend/src/services/ytdlp.service.ts:466 | A speed is read only from a chunk holding `at`. It has at least four characters and ends in `/s` |
| OutputParser.SpeedOfRate | apps/backend/src/services/ytdlp.service.ts:466 | After the first `at`, blanks, a run of digits and dots and a word ending in `/s`, the capture is exactly that run, word and `/s` |
| OutputParser.SpeedScenario | apps/backend/src/services/ytdlp.service.ts:466-469 | `at 1.2MiB/s` gives the speed `1.2MiB/s` |
| OutputParser.FindEta | apps/backend/src/services/ytdlp.service.ts:471 | An ETA is read only from a chunk holding `ETA`, and it is a non-empty run of digits and colons |
| OutputParser.EtaOfLine | apps/backend/src/services/ytdlp.service.ts:471 | After the first `ETA` and blanks, the capture is exactly the whole run of digits and colons that follows |
| OutputParser.EtaScenario | apps/backend/src/services/ytdlp.service.ts:471-474 | `ETA 00:30` gives the ETA `00:30` |
| OutputParser.FindDestination | apps/backend/src/services/ytdlp.service.ts:476 | A destination is read only from a chunk holding `[download] Destination: `, and it is non-empty |
| OutputParser.DestinationOfLine | apps/backend/src/services/ytdlp.service.ts:476 | After the first destination prefix, the capture is exactly the rest of that line |
| OutputParser.FindMergeTarget | apps/backend/src/services/ytdlp.service.ts:481 | A merge target is read only from a chunk holding the merger prefix and its quote, and it is non-empty |
| OutputParser.MergeTargetOfLine | apps/backend/src/services/ytdlp.service.ts:481 | After the first merger prefix, the capture runs to the last double quote of that line, so it may hold quotes itself |
| OutputParser.ParseChunk | apps/backend/src/services/ytdlp.service.ts:426-485 | The merge flag is set exactly when the chunk has the merger marker, and completion exactly on 'Deleting original file' or '100% of'. Each value field is what its recogniser reads. A merge target implies the marker, and the percentage is never negative |
| OutputParser.MergeTargetImpliesMarker | apps/backend/src/services/ytdlp.service.ts:481 | Every merge-target line contains `[Merger] Merging formats into` |
| ProgressMachine.InitialFlags | apps/backend/src/services/ytdlp.service.ts:419-424 | Before the first chunk nothing is merging, complete or failed, and the output path is the full path |
| ProgressMachine.StdoutFlagsMonotone | apps/backend/src/services/ytdlp.service.ts:430-446 | The flags only switch on. Merge completion never precedes a merge start. stdout leaves the error state alone |
| ProgressMachine.StdoutAllConsistent | apps/backend/src/services/ytdlp.service.ts:426-485 | Over any run of chunks a merge never completes before it starts, and merging and download completion stay on |
| ProgressMachine.ShownProgressBounded | apps/backend/src/services/ytdlp.service.ts:453-463 | A written progress lies in 0..100 and is not 100 while a merge is pending |
| ProgressMachine.ShownProgress | apps/backend/src/services/ytdlp.service.ts:453-463 | A percentage below 100 is shown as it is. From 100 on the shown value is 99 or 100, and 100 exactly when no merge is pending |
| ProgressMachine.StdoutPatchesBounded | apps/backend/src/services/ytdlp.service.ts:426-474 | One chunk's updates keep progress within 0..100 and never write 100 while a merge is pending. They set no status other than downloading and never touch error, filePath or filename |
| ProgressMachine.ParsedChunkPatchesBounded | apps/backend/src/services/ytdlp.service.ts:426-474 | The same bounds hold for every chunk text |
| ProgressMachine.ProgressCanDecrease | apps/backend/src/services/ytdlp.service.ts:461-463 | A percentage below 100 is written through unchanged, so a later 10% overwrites 50%: progress is not monotone |
| ProgressMachine.AfterStderr | apps/backend/src/services/ytdlp.service.ts:487-502 | Only a chunk containing `ERROR` or `error` is recorded. It sets hasError and replaces the message. Other chunks change nothing |
| ProgressMachine.LastErrorChunk | apps/backend/src/services/ytdlp.service.ts:490-493 | Some chunk naming an error, and it is the chunk after which no chunk names one (the latest); none exactly when no chunk names an error |
| ProgressMachine.StderrKeepsLatest | apps/backend/src/services/ytdlp.service.ts:487-502 | After any run of stderr chunks the message is the latest error chunk, not an accumulation |
| ProgressMachine.ObviousPath | apps/backend/src/services/ytdlp.service.ts:525-536 | The first of outputFilePath and fullPath that exists, and none exactly when neither does |
| ProgressMachine.FirstHit | apps/backend/src/services/ytdlp.service.ts:546-559 | The first listed file that has the expected extension, names 'Claude' or the first ten title characters, and exists |
| ProgressMachine.SearchDirectory | apps/backend/src/services/ytdlp.service.ts:538-560 | The search finds an existing joined path of a listed file that passes the test. It finds none exactly when no listed file passes |
| ProgressMachine.Locate | apps/backend/src/services/ytdlp.service.ts:521-560 | An obvious path that exists and is not empty wins. A path found elsewhere comes from the listing, and a readable listing with a passing file always finds one. Not found exactly when the listing was read, no obvious path applied and no listed file passes. A listing failure is the only way the search itself fails |
| ProgressMachine.DecideClose | apps/backend/src/services/ytdlp.service.ts:562-633 | Completed exactly when a file was found. Failing that: fallback exactly on exit 255; on a non-zero code or captured error, the error text or 'Download failed with code N'; on exit 0, 'Download seemed successful…' rejected as 'File not found after download'; a search failure gives 'Error locating downloaded file' |
| ProgressMachine.CompletionIgnoresExitCode | apps/backend/src/services/ytdlp.service.ts:562-585 | A found file completes the job for every exit code and error state |
| ProgressMachine.ClosePatch | apps/backend/src/services/ytdlp.service.ts:569-631 | Completion writes status completed, progress 100 and the path. A failure writes status error and its text. The fallback path writes nothing |
| ProgressMachine.RejectionPatch | apps/backend/src/services/ytdlp.service.ts:312-339 | The `.catch` writes status error with the message, or 'Download failed' for an empty one |
| ProgressMachine.FailedCloseSettles | apps/backend/src/services/ytdlp.service.ts:610-624 | After a failed close and the `.catch`, the record holds status error and the rejection message. For exit 0 without a file, that message overwrites the text the handler wrote |
| ProgressMachine.FallbackCommandParts | apps/backend/src/services/ytdlp.service.ts:794-807 | The fallback command is `python -m yt_dlp`, then `--extract-audio --audio-format f` or `--format best`, then `--output path url` |
| ProgressMachine.FallbackStdoutPatches | apps/backend/src/services/ytdlp.service.ts:820-830 | A fallback chunk writes at most one patch, the raw percentage unclamped, and writes one exactly when the chunk holds a percentage |
| ProgressMachine.FallbackClose | apps/backend/src/services/ytdlp.service.ts:840-860 | The fallback succeeds exactly on exit 0 with the expected file present, and then reports that path |
| ProgressMachine.AfterFallback | apps/backend/src/services/ytdlp.service.ts:595-609 | A successful fallback completes the job. Any failure gives the fixed 'blocked even with fallback' error |
| ProgressMachine.FallbackAsWritten | apps/backend/src/services/ytdlp.service.ts:805 | As written, the fallback always rejects |
| ProgressMachine.FallbackNeverRescues | apps/backend/src/services/ytdlp.service.ts:596-609 | With the file present and exit 0, the intended fallback completes the job. The written one leaves it blocked |
| YtDlpHelpers.SanitizedNameIsClean | apps/backend/src/services/ytdlp.service.ts:124-137 | The name is non-empty and at most 200 characters. It has none of `<>:"/\|?*()` or control characters, does not end with '.', has single spaces only and does not start with white space |
| YtDlpHelpers.SanitizeFilename | apps/backend/src/services/ytdlp.service.ts:124-137 | The name is never empty and has at most 200 characters |
| YtDlpHelpers.CleanNameIsFixedPoint | apps/backend/src/services/ytdlp.service.ts:124-137 | A name that is already clean comes back unchanged |
| YtDlpHelpers.SanitizeNotIdempotent | apps/backend/src/services/ytdlp.service.ts:130-134 | 'a .' sanitises to 'a ', which sanitises again to 'a', because the dot strip runs after the trim |
| YtDlpHelpers.GetFileExtension | apps/backend/src/services/ytdlp.service.ts:140-152 | An audio request keeps its format. Otherwise webm, mkv or avi in any case gives that name in lower case, and anything else gives mp4 |
| YtDlpHelpers.BuildYtDlpArgs | apps/backend/src/services/ytdlp.service.ts:675-709 | Audio: `--extract-audio --audio-format f`. Video: the `--format` selector and `--merge-output-format` (mp4 when empty). Always ends `--progress --newline --no-warnings` |
| YtDlpServiceModel.YtDlpService.BuildYtDlpArgsWithFilename | apps/backend/src/services/ytdlp.service.ts:675-709 | The push-by-push builder returns exactly the argument list above |
| YtDlpHelpers.QualityHeightOfDigits | apps/backend/src/services/ytdlp.service.ts:683 | A quality of digits and 'p' becomes the plain height |
| YtDlpHelpers.FourKHeight | apps/backend/src/services/ytdlp.service.ts:683 | '4k' becomes 2160 |
| YtDlpHelpers.DownloadCommandPartsShape | apps/backend/src/services/ytdlp.service.ts:386-399 | The command words: the yt-dlp command, `--no-playlist --output`, the quoted path with every backslash turned into '/', the arguments, and the quoted URL |
| YtDlpHelpers.DownloadCommandLineEnds | apps/backend/src/services/ytdlp.service.ts:401 | The joined command starts with the yt-dlp command and ends with the quoted URL |
| YtDlpHelpers.InfoCommandLine | apps/backend/src/services/ytdlp.service.ts:176-188 | The lookup command starts `python -m yt_dlp --dump-json --no-playlist` and ends with the quoted URL |
| YtDlpHelpers.AnalyzeExitCode | apps/backend/src/services/ytdlp.service.ts:730-745 | The bot-detection diagnosis is given exactly for 255, and any unlisted code (or `null`) is diagnosed as unknown, naming the code |
| YtDlpHelpers.DiagnosisIdentifiesCode | apps/backend/src/services/ytdlp.service.ts:730-745 | Two exit codes get the same diagnosis only when they are equal, so the logged text identifies the code |
| YtDlpHelpers.YoutubeUrlAccepts | apps/backend/src/services/ytdlp.service.ts:166 | Every URL the expression describes (scheme, optional www, host, '/', a rest without line breaks) is accepted |
| YtDlpHelpers.YoutubeUrlDecomposes | apps/backend/src/services/ytdlp.service.ts:166-171 | Every accepted URL decomposes that way, so the recogniser is exactly the expression |
| YtDlpHelpers.ClassifyInfoFailure | apps/backend/src/services/ytdlp.service.ts:233-246 | The tests run in order: 403 exactly when stderr mentions an unavailable or private video; otherwise 404 exactly on 'not found' or 'No video'; otherwise 408 exactly on 'network' or 'timeout'; otherwise 400. Each code has its fixed message, and a 400 carries the stderr text |
| YtDlpHelpers.ClassifyMatchesRules | apps/backend/src/services/ytdlp.service.ts:237-245 | The chain of tests equals a first-match rule table of phrase lists, with 400 and stderr as the fall-through |
| YtDlpHelpers.InfoLookup | apps/backend/src/services/ytdlp.service.ts:164-292 | An invalid URL is refused with 400 before any process runs. Success needs exit 0 and non-blank output, and then gives the parsed record. A non-zero exit is classified by stderr |
| YtDlpHelpers.InfoOutcome | apps/backend/src/services/ytdlp.service.ts:224-287 | The process outcome succeeds exactly on exit 0 with non-blank output that parses as JSON and carries a non-empty title; a parse failure (500) or a missing title (400) fails even on exit 0 |
| YtDlpHelpers.CooldownMultiplierSteps | apps/backend/src/services/ytdlp.service.ts:55-65 | The multiplier is 1 for counts 1–3, 2 for 4–6, 3 for 7–10 and 5 above, and never falls as the count grows |
| YtDlpHelpers.CooldownMultiplier | apps/backend/src/services/ytdlp.service.ts:55-65 | The multiplier is one of 1, 2, 3 and 5 |
| YtDlpHelpers.Cooldown | apps/backend/src/services/ytdlp.service.ts:67-69 | The cool-down is floor(8000·m·r), so it lies in [6000·m, 10000·m) |
| YtDlpHelpers.SpacingWait | apps/backend/src/services/ytdlp.service.ts:350-354 | The wait is positive exactly when elapsed < required. It then equals required − elapsed, and elapsed plus wait always reaches required |
| YtDlpHelpers.CooldownOvertakeExample | apps/backend/src/services/ytdlp.service.ts:346-355 | With the stamp at 0, a download launched at 1 s with factor 1.2 goes on at 9.6 s, and one launched at 2 s with factor 0.8 during that wait goes on at 6.4 s, before the first |
| YtDlpHelpers.CooldownRaceExample | apps/backend/src/services/ytdlp.service.ts:346-355 | With the stamp at 0, a download launched at 1 s waits until 8 s, and one launched at 2 s during that wait also goes on at 8 s |
| YtDlpHelpers.ExtNameOfFilename | apps/backend/src/services/ytdlp.service.ts:544 | The extension the search expects is that of the built file name |
| YtDlpHelpers.OutputDir | apps/backend/src/services/ytdlp.service.ts:358 | The request's output path when set and non-empty, otherwise the default folder |
| YtDlpServiceModel.YtDlpService.constructor | apps/backend/src/services/ytdlp.service.ts:10-23 | An empty registry, zeroed counters, no processes and an armed sweep |
| YtDlpServiceModel.YtDlpService.CleanupOldDownloads | apps/backend/src/services/ytdlp.service.ts:26-41 | The registry becomes the sweep of the old one. Nothing else changes |
| YtDlpServiceModel.YtDlpService.ReplaceAll | apps/backend/src/services/ytdlp.service.ts:35-38 | `clear()` and then `set` for each kept entry rebuilds exactly that sequence |
| YtDlpServiceModel.YtDlpService.CalculateCooldown | apps/backend/src/services/ytdlp.service.ts:51-70 | The count goes up by exactly one. The result is the cool-down for the new count, in [6000·m, 10000·m) |
| YtDlpServiceModel.YtDlpService.AwaitCooldown | apps/backend/src/services/ytdlp.service.ts:346-355 | One attempt with no other between its read and its stamp: it waits out the rest of the cool-down and stamps the clock at least one cool-down after the previous stamp |
| YtDlpServiceModel.YtDlpService.BeginCooldown | apps/backend/src/services/ytdlp.service.ts:346-353 | The read half: the count goes up by one and the wait is computed from the stamp as it is, which stays unchanged |
| YtDlpServiceModel.YtDlpService.StampClock | apps/backend/src/services/ytdlp.service.ts:355 | The stamp becomes the given time and nothing else changes |
| YtDlpServiceModel.YtDlpService.OverlappingCooldowns | apps/backend/src/services/ytdlp.service.ts:346-355 | A second launch during the first one's wait reads the same stamp, so it goes on less than its own cool-down after the first; each timer stamps when it fires, so the final stamp is the later of the two starts |
| YtDlpServiceModel.YtDlpService.ReservedCooldowns | apps/backend/src/services/ytdlp.service.ts:346-355 | With the slot stamped before the wait, the second launch goes on at least its own cool-down after the first |
| YtDlpServiceModel.YtDlpService.AwaitInfoSlot | apps/backend/src/services/ytdlp.service.ts:155-162 | One lookup with no other between its read and its stamp waits out the rest of 8 s on the same clock and stamps it |
| YtDlpServiceModel.YtDlpService.AwaitBeforeInfo | apps/backend/src/services/ytdlp.service.ts:346-365 | Because the two steps share one clock, a download's own lookup waits 8 s minus the set-up time after the cool-down |
| YtDlpServiceModel.YtDlpService.StartDownload | apps/backend/src/services/ytdlp.service.ts:295-342 | With two or more jobs downloading the new job is queued ('Aguardando na fila...') and launched later. Otherwise it is downloading ('Preparing download...') and launched now. Progress is 0, it is the only entry added, and the counters are untouched |
| YtDlpServiceModel.AdmissionAddsOne | apps/backend/src/services/ytdlp.service.ts:295-330 | A fresh id is appended, every other entry stays, and the downloading count rises by one exactly for an admitted job |
| YtDlpServiceModel.QueuedLaunchExceedsLimit | apps/backend/src/services/ytdlp.service.ts:311-319 | The queued job launches without a re-check, so a third job can be downloading at once |
| YtDlpServiceModel.YtDlpService.RecordAttempt | apps/backend/src/services/ytdlp.service.ts:377-382 | The job is reset to downloading, progress 0, with the real file name, keeping its position |
| YtDlpServiceModel.YtDlpService.UpdateDownloadProgress | apps/backend/src/services/ytdlp.service.ts:719-724 | The registry becomes the merge of the patch into the id's entry. Nothing else changes |
| YtDlpServiceModel.YtDlpService.RecordRejection | apps/backend/src/services/ytdlp.service.ts:333-339 | The `.catch` merges the rejection patch |
| YtDlpServiceModel.YtDlpService.ProcessStarted | apps/backend/src/services/ytdlp.service.ts:417 | The id joins the running processes |
| YtDlpServiceModel.YtDlpService.ProcessEnded | apps/backend/src/services/ytdlp.service.ts:638 | The id leaves the running processes |
| YtDlpServiceModel.YtDlpService.GetDownloadProgress | apps/backend/src/services/ytdlp.service.ts:670-672 | A record exactly for a known id, and it is that id's entry |
| YtDlpServiceModel.YtDlpService.GetActiveDownloadsCount | apps/backend/src/services/ytdlp.service.ts:784-786 | The number of running processes, zero exactly when none runs |
| YtDlpServiceModel.YtDlpService.DownloadedFilePath | apps/backend/src/services/ytdlp.service.ts:663-668 | downloadVideo's answer: the recorded path when it is present and non-empty, otherwise (no job, no path, or an empty path) 'download.mp4' |
| YtDlpServiceModel.YtDlpService.Cleanup | apps/backend/src/services/ytdlp.service.ts:748-781 | Every running process is signalled once. Then the processes and jobs are cleared and the sweep is disarmed |
| YtDlpServiceModel.NoChangeUpdate | apps/backend/src/services/ytdlp.service.ts:719-724 | An empty update leaves the registry as it was |
| YtDlpServiceModel.DownloadAttempt.constructor | apps/backend/src/services/ytdlp.service.ts:358-424 | The output folder, the sanitised title, the file name with its extension, the full path, the command and the initial flags are set; nothing else is touched |
| YtDlpServiceModel.DownloadAttempt.Register | apps/backend/src/services/ytdlp.service.ts:377-417 | The job is reset to downloading with the real file name, the id joins the running processes, and nothing else changes |
| YtDlpServiceModel.DownloadAttempt.OnStdout | apps/backend/src/services/ytdlp.service.ts:426-485 | One chunk moves the flags as AfterStdout says and applies exactly StdoutPatches, in order, to the job |
| YtDlpServiceModel.DownloadAttempt.OnChunk | apps/backend/src/services/ytdlp.service.ts:430-484 | The same, for a chunk already parsed, by the four stages in source order |
| YtDlpServiceModel.DownloadAttempt.MergeStage | apps/backend/src/services/ytdlp.service.ts:430-446 | The merge marker sets merging and writes 99. A completion marker counts only once merging |
| YtDlpServiceModel.DownloadAttempt.ProgressStage | apps/backend/src/services/ytdlp.service.ts:448-464 | A percentage at or above 100 marks the download complete and writes the shown progress |
| YtDlpServiceModel.DownloadAttempt.RateStage | apps/backend/src/services/ytdlp.service.ts:466-474 | Writes the speed, then the ETA, when present |
| YtDlpServiceModel.DownloadAttempt.PathStage | apps/backend/src/services/ytdlp.service.ts:476-484 | The merge target overrides the destination. Both are trimmed |
| YtDlpServiceModel.DownloadAttempt.OnStderr | apps/backend/src/services/ytdlp.service.ts:487-502 | The flags move as AfterStderr says |
| YtDlpServiceModel.DownloadAttempt.TryCandidatePaths | apps/backend/src/services/ytdlp.service.ts:525-536 | The loop over the two candidates yields the first that exists, or nothing |
| YtDlpServiceModel.DownloadAttempt.SearchListing | apps/backend/src/services/ytdlp.service.ts:546-559 | The loop over the listing yields the first hit, in listing order |
| YtDlpServiceModel.DownloadAttempt.LocateOutputFile | apps/backend/src/services/ytdlp.service.ts:521-560 | The two loops together compute Locate |
| YtDlpServiceModel.DownloadAttempt.OnClose | apps/backend/src/services/ytdlp.service.ts:504-634 | The id leaves the running processes. The outcome is DecideClose of the search, and the job gets exactly that outcome's update |
| YtDlpServiceModel.DownloadAttempt.OnProcessError | apps/backend/src/services/ytdlp.service.ts:636-646 | The id leaves the running processes. The job gets 'Failed to start download: m', and the method rejects with m |
| YtDlpServiceModel.DownloadAttempt.OnFallbackStdout | apps/backend/src/services/ytdlp.service.ts:820-830 | A fallback chunk applies exactly FallbackStdoutPatches |
| YtDlpServiceModel.DownloadAttempt.ConcludeFallback | apps/backend/src/services/ytdlp.service.ts:595-609 | The outcome is AfterFallback, and the job gets its update |
| DownloadController.ValidOutputPath | apps/backend/src/controllers/download.controller.ts:35-46 | A path is forwarded exactly when it is set, not 'string' and not blank, and then untrimmed |
| DownloadController.DownloadRequestOf | apps/backend/src/controllers/download.controller.ts:24-48 | A missing url gives 400 'URL is required' before the format is checked, then a missing format gives 400 'Format is required'. Otherwise the request carries the fields and the checked path |
| DownloadController.ForwardedPathIsUsable | apps/backend/src/controllers/download.controller.ts:35-47 | A forwarded path becomes the output folder. The placeholder and blank paths fall back to the default folder |
| DownloadController.ValidateUrl | apps/backend/src/controllers/download.controller.ts:114-129 | 400 'URL is required' for a missing url, 400 'Invalid YouTube URL' when the expression rejects it, and success exactly otherwise |
| DownloadController.ValidationAgreesWithLookup | apps/backend/src/controllers/download.controller.ts:120 | The handler's URL check and the lookup's agree: a URL that passes goes on to the process outcome, and one that fails gets the handler's error |
| DownloadController.VideoInfoQuery | apps/backend/src/controllers/download.controller.ts:66-74 | A missing or empty query gives 400 before the service's lookup; any other query gets exactly the service's lookup, so only a YouTube URL can succeed |
| DownloadController.AvailableFormats | apps/backend/src/controllers/download.controller.ts:141-145 | The video and audio lists are the shared types' formats, and the seven qualities end with 'best' |
| DownloadController.OfferedQualitiesAreHeights | apps/backend/src/controllers/download.controller.ts:144 | Every offered quality but 'best' turns into a numeric height for the format selector |
| DownloadController.OfferedAudioFormatsKeepExtension | apps/backend/src/controllers/download.controller.ts:143 | Every offered audio format is an audio request and keeps its extension |
| DownloadController.OfferedVideoFormatsKeepExtension | apps/backend/src/controllers/download.controller.ts:142 | Every offered video format keeps its extension |
| DownloadController.Controller.GetYtDlpService | apps/backend/src/controllers/download.controller.ts:8-16 | The first call creates an empty service. Every later call returns the same one |
| DownloadController.Controller.DownloadVideo | apps/backend/src/controllers/download.controller.ts:18-58 | An invalid body fails before the service is touched. A valid one makes exactly one admission and answers success with the id and 'Download started successfully'. Either way the service's request count, clock, running processes and sweep timer are unchanged |
| DownloadController.Controller.GetDownloadProgress | apps/backend/src/controllers/download.controller.ts:85-106 | 404 'Download not found' exactly for an unknown id, otherwise that id's record |
| DownloadStore.AddRecent | apps/frontend/src/stores/download.ts:93-96 | The new item comes first, followed by at most the first two previous items in order |
| DownloadStore.RecentKeepsLatest | apps/frontend/src/stores/download.ts:93-96 | After any run of additions the list is the newest three of the additions and the old list |
| DownloadStore.Store.constructor | apps/frontend/src/stores/download.ts:44-56 | The initial state: no video, no jobs, progress 0, '0 MB/s', '--:--', no recent items and validity unknown |
| DownloadStore.Store.AddDownload | apps/frontend/src/stores/download.ts:60-65 | The record is stored under its own id, replacing an earlier one. Nothing else changes |
| DownloadStore.Store.UpdateDownload | apps/frontend/src/stores/download.ts:67-75 | The fields are merged into a present id's record, and an absent id changes nothing |
| DownloadStore.Store.RemoveDownload | apps/frontend/src/stores/download.ts:77-82 | Exactly the given key goes, and every other record stays |
| DownloadStore.Store.AddRecentDownload | apps/frontend/src/stores/download.ts:93-96 | The recent list becomes AddRecent of the old one. Nothing else changes |
| DownloadStore.Store.ClearAll | apps/frontend/src/stores/download.ts:100-107 | jobs, video, error, downloading flag, progress and current id are reset. The recent list, the rate texts and the loading and validity flags stay |
| ConfigurePorts.ValidatePorts | scripts/configure-ports.js:73-91 | The checks run in order: a missing section; then a falsy port (port 0 included); then equal ports, with the port in the message. Success exactly when none applies. A missing environment fails as a TypeError |
| ConfigurePorts.ValidatedPortsDiffer | scripts/configure-ports.js:80-86 | A passing check leaves two set, non-zero, distinct ports |
| ConfigurePorts.CreateEnvContent | scripts/configure-ports.js:27-56 | Both texts are the header for the upper-cased environment, followed by their settings, one `KEY=value` line each |
| ConfigurePorts.SettingInFile | scripts/configure-ports.js:38-53 | Every setting is a whole `KEY=value` line of the written file, after the header |
| ConfigurePorts.BackendFileLines | scripts/configure-ports.js:44-54 | The backend file has lines PORT and HOST for the backend, FRONTEND_URL and CORS_ORIGIN for `http://host:port` of the frontend, and BACKEND_URL and ENVIRONMENT |
| ConfigurePorts.FrontendFileLines | scripts/configure-ports.js:33-43 | The frontend file has VITE_API_URL for the backend's URL, VITE_FRONTEND_URL, VITE_ENVIRONMENT, and the two ports |
| ConfigurePorts.ValidatedConfigRenders | scripts/configure-ports.js:107-110 | After the check passes, rendering cannot fail and both ports print as numbers |
| VideoInfoView.Pad2 | apps/frontend/src/components/VideoInfo.tsx:48-52 | `padStart(2, '0')` gives two digits that read back as the number |
| VideoInfoView.FieldsInRange | apps/frontend/src/components/VideoInfo.tsx:43-46 | Minutes and seconds are below 60, H·3600 + M·60 + S is the input, and hours are non-zero exactly from one hour on |
| VideoInfoView.FormatDurationFields | apps/frontend/src/components/VideoInfo.tsx:47-52 | Below an hour the text is `M:SS`, with M unpadded. From an hour on it is `H:MM:SS`, with a non-zero H |
| VideoInfoView.FormatDuration | apps/frontend/src/components/VideoInfo.tsx:42-53 | Below an hour the text is minutes, a colon and two-digit seconds. From an hour on it is hours, then two-digit minutes and seconds |
| VideoInfoView.FormatDurationRoundTrip | apps/frontend/src/components/VideoInfo.tsx:42-53 | Reading the fields back gives the seconds formatted |

## Left out

- Child processes, `exec` options and the SIGTERM/SIGKILL escalation. Processes are events, and `Cleanup` only records which ids it signals.
- Timers: the 5-minute sweep interval, the 5 s queue delay and the 15 s fallback delay. They are event-loop scheduling; `StartDownload` returns whether the launch is now or later.
- The file system: `fs.access`, `readdir`, `mkdir` (`ensureDirectoryExists`) and `getDownloadsPath`. These are I/O, and their answers are parameters.
- `cleanYoutubeUrl`: it depends on the WHATWG URL parser, which is not part of this model. The cleaned URL is a parameter.
- `JSON.parse` and the field mapping of the metadata. The parse result is an input of the lookup event.
- `generateDownloadId` and `Math.random`: the id and the random factor are parameters.
- `global.gc` and the logger.
- `path.join` normalisation: the model joins with '/' and does not collapse `..` or repeated separators.
- `substring(0, 200)` counts UTF-16 code units; the model counts characters.
- Numbers are Dafny `real` and `int`; floating-point rounding of `parseFloat` is not modelled.
- `toUpperCase`/`toLowerCase` cover ASCII letters only, and `toLowerCase` also folds U+212A KELVIN SIGN to 'k'; other non-ASCII case mappings are not modelled because every comparison in the core is against lower-case ASCII text.
- Request bodies are typed: a JSON value that is not a string (a number for `url`, say) is not modelled, and a missing `audioOnly` is false.
- Ports are integers or missing. A port given as a string, or `NaN`, is not modelled. A missing host prints as `undefined`, as the template does.
- The store's plain setters (`setCurrentVideo`, `setLoading` and the rest) each assign one field and carry nothing to prove.
- The controller's `getDefaultPath` only returns `getDownloadsPath()`, which is I/O.
- AnalyzeExitCode: the contract singles out the bot-detection text (exactly for 255) and gives the unknown-code text for all unlisted codes. It does not restate the four other fixed texts; DiagnosisIdentifiesCode shows that they are pairwise distinct.
- FallbackStdoutPatches: the fallback writes the raw percentage, so a fallback chunk above 100% is not clamped. Its contract states that and no bound.
- The 10-minute absolute timeout of a download is a timer and is left out.
- AwaitInfoSlot: one lookup is a single step, with no other between its read of the stamp and its write. Two overlapping lookups read the same stamp exactly as the cool-downs do (see Findings), but that interleaving is modelled only for the cool-down.
- AwaitBeforeInfo: models one download's two waits with no other attempt running in between. Overlaps are covered by OverlappingCooldowns for the cool-down step only.

## Findings

| source | as written | input that shows it | evidently intended | confidence | as-written member | corrected member |
|---|---|---|---|---|---|---|
| apps/backend/src/services/ytdlp.service.ts:805 | `tryFallbackDownload` pushes `cleanUrl`, a name declared only inside `performDownload`. The executor throws a ReferenceError before any process runs, so the fallback always rejects | exit code 255 with no file found: with the file the fallback would produce present and exit 0, the job still ends 'YouTube blocked the download even with fallback strategy…' | the fallback downloads the cleaned URL and completes the job when it exits 0 with the expected file | high (not executed) | ProgressMachine.FallbackAsWritten, ProgressMachine.FallbackNeverRescues | ProgressMachine.FallbackClose, ProgressMachine.AfterFallback |
| apps/backend/src/services/ytdlp.service.ts:346-355 | performDownload reads `lastRequestTime` before its cool-down wait and writes it only after the wait. A second download that starts during the first one's wait therefore computes its wait from the same old stamp | stamp at 0: a download launched at 1 s with random factor 1.2 waits until 9.6 s, and a second, launched at 2 s with factor 0.8, goes on at 6.4 s, before the first; the stamp left behind is 9.6 s | each download starts at least one cool-down after the previous one, which holds if the stamp is written before the wait | medium (not executed) | YtDlpServiceModel.YtDlpService.OverlappingCooldowns, YtDlpHelpers.CooldownOvertakeExample | YtDlpServiceModel.YtDlpService.ReservedCooldowns, YtDlpServiceModel.YtDlpService.AwaitCooldown |
