/** The pure helpers of the download service: file-name sanitising, the
    output extension, the yt-dlp argument list and command lines, exit-code
    diagnostics, the YouTube URL recogniser, the metadata-lookup failure
    classification, the escalating cool-down and the path helpers. */
module YtDlpHelpers {
  import opened Wrappers
  import opened JsStrings
  import opened SharedTypes

  // ---------------------------------------------------------------------
  // sanitizeFilename

  /** The class `[<>:"/\\|?*\x00-\x1f()]`. */
  predicate IsForbiddenFilenameChar(c: char) {
    c in "<>:\"/\\|?*()" || c <= '\U{1F}'
  }

  /** Every blank is a plain space and no two spaces are adjacent. */
  predicate SingleSpaced(s: string) {
    && (forall k :: 0 <= k < |s| && IsJsWhitespace(s[k]) ==> s[k] == ' ')
    && (forall k :: 0 <= k < |s| - 1 ==> !(s[k] == ' ' && s[k + 1] == ' '))
  }

  predicate NoForbidden(s: string) {
    forall k :: 0 <= k < |s| ==> !IsForbiddenFilenameChar(s[k])
  }

  /** `.replace(/[<>:"/\\|?*\x00-\x1f()]/g, '')` */
  function RemoveForbidden(s: string): (r: string)
    ensures |r| <= |s| && NoForbidden(r)
    ensures NoForbidden(s) ==> r == s
  {
    if s == [] then []
    else (if IsForbiddenFilenameChar(s[0]) then [] else [s[0]]) + RemoveForbidden(s[1..])
  }

  /** `.replace(/\s+/g, ' ')` */
  function CollapseWhitespace(s: string): (r: string)
    ensures SingleSpaced(r)
    ensures r != [] <==> s != []
    ensures r != [] ==> (r[0] == ' ' <==> IsJsWhitespace(s[0]))
    ensures NoForbidden(s) ==> NoForbidden(r)
    decreases |s|
  {
    if s == [] then []
    else if IsJsWhitespace(s[0]) then
      var t := TrimStart(s[1..]);
      var c := CollapseWhitespace(t);
      assert c != [] ==> c[0] != ' ';
      CollapseBlankStep(s, t, c);
      " " + c
    else
      var c := CollapseWhitespace(s[1..]);
      CollapseKeepStep(s, c);
      [s[0]] + c
  }

  /** A run of white space becomes one space before the collapsed rest. */
  lemma CollapseBlankStep(s: string, t: string, c: string)
    requires s != [] && |t| < |s| && t == s[1..][|s| - 1 - |t|..]
    requires SingleSpaced(c) && (c != [] ==> c[0] != ' ')
    requires NoForbidden(t) ==> NoForbidden(c)
    ensures SingleSpaced(" " + c)
    ensures NoForbidden(s) ==> NoForbidden(" " + c)
  {
    assert s[1..][|s| - 1 - |t|..] == s[|s| - |t|..];
    SuffixNoForbidden(s, |s| - |t|);
    assert NoForbidden(s) ==> NoForbidden(t);
    ConsKeeps(' ', c);
  }

  /** Any other character is kept before the collapsed rest. */
  lemma CollapseKeepStep(s: string, c: string)
    requires s != [] && !IsJsWhitespace(s[0])
    requires SingleSpaced(c) && (NoForbidden(s[1..]) ==> NoForbidden(c))
    ensures SingleSpaced([s[0]] + c)
    ensures NoForbidden(s) ==> NoForbidden([s[0]] + c)
  {
    SuffixNoForbidden(s, 1);
    ConsKeeps(s[0], c);
  }

  /** A suffix of a text without forbidden characters has none either. */
  lemma SuffixNoForbidden(s: string, lo: nat)
    requires lo <= |s|
    ensures NoForbidden(s) ==> NoForbidden(s[lo..])
  {
    if NoForbidden(s) {
      forall k | 0 <= k < |s| - lo ensures !IsForbiddenFilenameChar(s[lo..][k]) {
        assert s[lo..][k] == s[lo + k];
      }
    }
  }

  /** Putting a character in front keeps the spacing, unless it makes a
      second blank or is a blank other than a space. */
  lemma ConsKeeps(x: char, c: string)
    requires SingleSpaced(c)
    requires IsJsWhitespace(x) ==> x == ' '
    requires x == ' ' && c != [] ==> c[0] != ' '
    ensures SingleSpaced([x] + c)
    ensures !IsForbiddenFilenameChar(x) && NoForbidden(c) ==> NoForbidden([x] + c)
  {
    var r := [x] + c;
    forall k | 1 <= k < |r| ensures r[k] == c[k - 1] { }
  }

  /** `.replace(/\.+$/, '')` */
  function StripTrailingDots(s: string): (r: string)
    ensures |r| <= |s| && r == s[..|r|]
    ensures r != [] ==> r[|r| - 1] != '.'
  {
    if s != [] && s[|s| - 1] == '.' then StripTrailingDots(s[..|s| - 1]) else s
  }

  /** `.substring(0, n)` */
  function Take(s: string, n: nat): (r: string)
    ensures |r| == if |s| < n then |s| else n
    ensures r == s[..|r|]
  {
    if |s| <= n then s else s[..n]
  }

  /** `sanitizeFilename`: the regex replaces, trim, the 200-character cut,
      the trailing-dot strip and the 'video' fallback, in source order. */
  function SanitizeFilename(filename: string): (r: string)
    ensures r != [] && |r| <= 200
  {
    var e := StripTrailingDots(Take(Trim(CollapseWhitespace(RemoveForbidden(filename))), 200));
    if e == [] then VideoFallback() else e
  }

  /** Whatever the title, the name is usable: non-empty, at most 200
      characters, free of the forbidden characters, single-spaced, and it
      neither starts with white space nor ends with a dot. */
  lemma SanitizedNameIsClean(filename: string)
    ensures IsUsableName(SanitizeFilename(filename))
  {
    var b := CollapseWhitespace(RemoveForbidden(filename));
    var e := StripTrailingDots(Take(Trim(b), 200));
    CleanAfterCollapse(b);
    assert SanitizeFilename(filename) == if e == [] then VideoFallback() else e;
  }

  /** What every sanitised name satisfies. */
  predicate IsUsableName(r: string) {
    && r != [] && |r| <= 200
    && NoForbidden(r)
    && r[|r| - 1] != '.'
    && SingleSpaced(r) && !IsJsWhitespace(r[0])
  }

  /** The steps after the whitespace collapse keep the text clean. */
  lemma CleanAfterCollapse(b: string)
    requires SingleSpaced(b) && NoForbidden(b)
    ensures var e := StripTrailingDots(Take(Trim(b), 200));
      e != [] ==> IsUsableName(e)
  {
    var c := Trim(b);
    TrimIsSlice(b);
    var d := Take(c, 200);
    PrefixKeeps(c, d);
    var e := StripTrailingDots(d);
    PrefixKeeps(d, e);
  }

  function VideoFallback(): (r: string)
    ensures r != [] && |r| <= 200 && NoForbidden(r) && r[|r| - 1] != '.'
    ensures SingleSpaced(r) && !IsJsWhitespace(r[0])
  {
    "video"
  }

  /** A text read off a window of a clean text is clean. */
  lemma WindowKeeps(s: string, p: string, lo: nat)
    requires lo + |p| <= |s|
    requires forall k :: 0 <= k < |p| ==> p[k] == s[lo + k]
    requires SingleSpaced(s) && NoForbidden(s)
    ensures SingleSpaced(p) && NoForbidden(p)
  {
    forall k | 0 <= k < |p| - 1 ensures !(p[k] == ' ' && p[k + 1] == ' ') {
      assert p[k] == s[lo + k] && p[k + 1] == s[lo + k + 1];
    }
  }

  /** A prefix of a suffix is a window of the whole. */
  lemma PrefixOfSuffix(s: string, t: string, r: string)
    requires |t| <= |s| && t == s[|s| - |t|..]
    requires |r| <= |t| && r == t[..|r|]
    ensures forall k :: 0 <= k < |r| ==> r[k] == s[|s| - |t| + k]
  {
  }

  /** The trimmed text keeps the properties of characters and adjacent
      pairs. */
  lemma TrimIsSlice(s: string)
    requires SingleSpaced(s) && NoForbidden(s)
    ensures SingleSpaced(Trim(s)) && NoForbidden(Trim(s))
  {
    var t := TrimStart(s);
    var r := TrimEnd(t);
    PrefixOfSuffix(s, t, r);
    WindowKeeps(s, r, |s| - |t|);
  }

  /** A prefix keeps every property of characters and adjacent pairs. */
  lemma PrefixKeeps(c: string, e: string)
    requires SingleSpaced(c) && NoForbidden(c) && (c != [] ==> !IsJsWhitespace(c[0]))
    requires |e| <= |c| && e == c[..|e|]
    ensures SingleSpaced(e) && NoForbidden(e) && (e != [] ==> !IsJsWhitespace(e[0]))
  {
    WindowKeeps(c, e, 0);
  }

  /** A name that is already clean passes through unchanged. */
  predicate IsCleanName(s: string) {
    IsUsableName(s) && !IsJsWhitespace(s[|s| - 1])
  }

  lemma {:induction false} CollapseKeepsSingleSpaced(s: string)
    requires SingleSpaced(s)
    ensures CollapseWhitespace(s) == s
    decreases |s|
  {
    if s != [] {
      assert SingleSpaced(s[1..]);
      if IsJsWhitespace(s[0]) {
        assert s[0] == ' ';
        if |s| > 1 {
          assert !IsJsWhitespace(s[1]);
        }
        assert TrimStart(s) == s[1..];
      }
      CollapseKeepsSingleSpaced(s[1..]);
    }
  }

  lemma CleanNameIsFixedPoint(s: string)
    requires IsCleanName(s)
    ensures SanitizeFilename(s) == s
  {
    CollapseKeepsSingleSpaced(s);
    TrimOfTrimmed(s);
    assert Take(s, 200) == s;
    assert StripTrailingDots(s) == s;
    assert StripTrailingDots(Take(Trim(CollapseWhitespace(RemoveForbidden(s))), 200)) == s;
  }

  lemma TrimOfTrimmed(s: string)
    requires s != [] && !IsJsWhitespace(s[0]) && !IsJsWhitespace(s[|s| - 1])
    ensures Trim(s) == s
  {
    assert TrimStart(s) == s;
    assert TrimEnd(s) == s;
  }

  /** Sanitising is not idempotent: the trailing-dot strip runs after the
      trim and can expose a trailing space, which a second pass removes. */
  lemma SanitizeNotIdempotent()
    ensures SanitizeFilename("a .") == "a "
    ensures SanitizeFilename(SanitizeFilename("a .")) == "a"
  {
    SanitizeSpaceDot();
    SanitizeSpace();
  }

  lemma SanitizeSpaceDot()
    ensures SanitizeFilename("a .") == "a "
  {
    var s := "a .";
    SpaceDotClean();
    SpaceDotTrimmed();
    assert Take(s, 200) == s;
    assert StripTrailingDots(s) == "a " by {
      assert s[..2] == "a " && "a "[..1] == "a";
    }
  }

  lemma SpaceDotClean()
    ensures CollapseWhitespace(RemoveForbidden("a .")) == "a ."
  {
    assert NoForbidden("a .") && SingleSpaced("a .");
    CollapseKeepsSingleSpaced("a .");
  }

  lemma SpaceDotTrimmed()
    ensures Trim("a .") == "a ."
  {
    assert TrimStart("a .") == "a ." && TrimEnd("a .") == "a .";
  }

  lemma SanitizeSpace()
    ensures SanitizeFilename("a ") == "a"
  {
    SpaceClean();
    SpaceTrimmed();
    assert Take("a", 200) == "a";
    assert StripTrailingDots("a") == "a";
  }

  lemma SpaceClean()
    ensures CollapseWhitespace(RemoveForbidden("a ")) == "a "
  {
    assert NoForbidden("a ") && SingleSpaced("a ");
    CollapseKeepsSingleSpaced("a ");
  }

  lemma SpaceTrimmed()
    ensures Trim("a ") == "a"
  {
    TrimEndOfLastBlank("a", ' ');
    TrimOfTrimmed("a");
  }

  /** A trailing blank does not survive the trim. */
  lemma TrimEndOfLastBlank(s: string, c: char)
    requires IsJsWhitespace(c)
    ensures TrimEnd(s + [c]) == TrimEnd(s)
  {
    assert (s + [c])[..|s + [c]| - 1] == s;
  }

  // ---------------------------------------------------------------------
  // getFileExtension and buildYtDlpArgsWithFilename

  /** `audioOnly || ['mp3', 'aac', 'flac', 'wav'].includes(format)` */
  predicate IsAudioRequest(format: string, audioOnly: bool) {
    audioOnly || format in AudioFormats
  }

  function GetFileExtension(format: string, audioOnly: bool): (ext: string)
    ensures IsAudioRequest(format, audioOnly) ==> ext == format
    ensures !IsAudioRequest(format, audioOnly) ==> ext in VideoFormats
    ensures !IsAudioRequest(format, audioOnly) && ToLowerCase(format) in ["webm", "mkv", "avi"] ==> ext == ToLowerCase(format)
    ensures !IsAudioRequest(format, audioOnly) && ToLowerCase(format) !in ["webm", "mkv", "avi"] ==> ext == "mp4"
  {
    if IsAudioRequest(format, audioOnly) then format
    else
      var lower := ToLowerCase(format);
      if lower == "webm" then "webm"
      else if lower == "mkv" then "mkv"
      else if lower == "avi" then "avi"
      else "mp4"
  }

  /** `quality.replace('p', '').replace('4k', '2160')` */
  function QualityHeight(quality: string): string {
    ReplaceFirst(ReplaceFirst(quality, "p", ""), "4k", "2160")
  }

  function FormatSelector(quality: Option<string>): string {
    if quality.Some? && quality.value != "" && quality.value != "best" then
      var h := QualityHeight(quality.value);
      "bestvideo[height<=" + h + "]+bestaudio/best[height<=" + h + "]"
    else "bestvideo+bestaudio/best"
  }

  const ProgressFlags: seq<string> := ["--progress", "--newline", "--no-warnings"]

  function BuildYtDlpArgs(request: DownloadRequest): (args: seq<string>)
    ensures |args| >= 3 && args[|args| - 3..] == ProgressFlags
    ensures IsAudioRequest(request.format, request.audioOnly) ==>
      args[..3] == ["--extract-audio", "--audio-format", request.format] && |args| == 6
    ensures !IsAudioRequest(request.format, request.audioOnly) ==>
      |args| == 7 && args[0] == "--format" && args[2] == "--merge-output-format"
      && args[1] == FormatSelector(request.quality)
      && args[3] == (if request.format == "" then "mp4" else request.format)
  {
    var head :=
      if IsAudioRequest(request.format, request.audioOnly) then
        ["--extract-audio", "--audio-format", request.format]
      else
        ["--format", FormatSelector(request.quality)]
        + (if request.format != "" && request.format !in AudioFormats then ["--merge-output-format", request.format]
           else if request.format == "" then ["--merge-output-format", "mp4"]
           else []);
    head + ProgressFlags
  }

  /** A quality written as digits and 'p' becomes its plain numeric height. */
  lemma QualityHeightOfDigits(d: string)
    requires d != [] && AllDigits(d)
    ensures QualityHeight(d + "p") == d
  {
    var q := d + "p";
    assert OccursAt(q, "p", |d|);
    forall j | 0 <= j < |d| ensures !OccursAt(q, "p", j) {
      assert q[j..j + 1] == [d[j]];
    }
    assert IndexOfFrom(q, "p", 0) == Some(|d|);
    assert q[..|d|] + "" + q[|d| + 1..] == d;
    forall j | 0 <= j ensures !OccursAt(d, "4k", j) {
      if j + 2 <= |d| {
        assert d[j..j + 2][1] == d[j + 1];
      }
    }
  }

  /** '4k' becomes 2160. */
  lemma FourKHeight()
    ensures QualityHeight("4k") == "2160"
  {
    assert "4k"[1..2] == "k" && "4k"[0..1] == "4";
    assert IndexOfFrom("4k", "p", 2) == None;
    assert IndexOfFrom("4k", "p", 1) == None;
    assert IndexOfFrom("4k", "p", 0) == None;
    assert IndexOfFrom("4k", "4k", 0) == Some(0);
    assert "4k"[..0] + "2160" + "4k"[2..] == "2160";
  }

  // ---------------------------------------------------------------------
  // command lines

  const YtDlpCommand: string := "python -m yt_dlp"

  /** The words of performDownload's command: the output path with
      backslashes turned into slashes and quoted, the arguments, and the
      quoted URL last. */
  function DownloadCommandParts(fullPath: string, args: seq<string>, cleanUrl: string): seq<string> {
    [YtDlpCommand, "--no-playlist", "--output", "\"" + ReplaceAllChar(fullPath, '\\', '/') + "\""] + args + ["\"" + cleanUrl + "\""]
  }

  /** The command words in order: the yt-dlp command, the flags, the quoted
      path with every backslash turned into '/', the arguments and the
      quoted URL. */
  lemma DownloadCommandPartsShape(fullPath: string, args: seq<string>, cleanUrl: string)
    ensures var parts := DownloadCommandParts(fullPath, args, cleanUrl);
      && |parts| == |args| + 5
      && parts[..3] == [YtDlpCommand, "--no-playlist", "--output"]
      && parts[3] == "\"" + ReplaceAllChar(fullPath, '\\', '/') + "\"" && '\\' !in parts[3]
      && parts[4..|parts| - 1] == args && parts[|parts| - 1] == "\"" + cleanUrl + "\""
  {
  }

  /** `commandParts.join(' ')` */
  function DownloadCommandLine(fullPath: string, args: seq<string>, cleanUrl: string): string {
    Join(DownloadCommandParts(fullPath, args, cleanUrl), " ")
  }

  /** The command starts with the yt-dlp command and ends with the quoted URL. */
  lemma DownloadCommandLineEnds(fullPath: string, args: seq<string>, cleanUrl: string)
    ensures StartsWith(DownloadCommandLine(fullPath, args, cleanUrl), YtDlpCommand + " ")
    ensures EndsWith(DownloadCommandLine(fullPath, args, cleanUrl), " \"" + cleanUrl + "\"")
  {
    DownloadCommandPartsShape(fullPath, args, cleanUrl);
    JoinEnds(DownloadCommandParts(fullPath, args, cleanUrl));
  }

  lemma JoinEnds(parts: seq<string>)
    requires |parts| >= 2
    ensures StartsWith(Join(parts, " "), parts[0] + " ")
    ensures EndsWith(Join(parts, " "), " " + parts[|parts| - 1])
  {
    ConcatEnds(parts[0] + " ", Join(parts[1..], " "));
    JoinEndsWithLast(parts);
  }

  lemma {:induction false} JoinEndsWithLast(parts: seq<string>)
    requires |parts| >= 2
    ensures EndsWith(Join(parts, " "), " " + parts[|parts| - 1])
    decreases |parts|
  {
    if |parts| > 2 {
      JoinEndsWithLast(parts[1..]);
    } else {
      ConcatEnds(parts[0], " " + parts[1]);
    }
  }

  /** The metadata lookup's command. */
  function InfoCommandLine(cleanUrl: string): (cmd: string)
    ensures StartsWith(cmd, YtDlpCommand + " --dump-json --no-playlist ")
    ensures EndsWith(cmd, " \"" + cleanUrl + "\"")
  {
    var head := YtDlpCommand + " --dump-json --no-playlist ";
    var tail := "--no-check-certificate --socket-timeout 30 --retries 3";
    ConcatEnds(head + tail, " \"" + cleanUrl + "\"");
    ConcatEnds(head, tail + " \"" + cleanUrl + "\"");
    assert head + tail + " \"" + cleanUrl + "\"" == head + (tail + " \"" + cleanUrl + "\"");
    head + tail + " \"" + cleanUrl + "\""
  }

  // ---------------------------------------------------------------------
  // analyzeExitCode

  /** `${code}` for a close event's exit code, which Node reports as `null`
      when a signal ended the process. */
  function CodeText(code: Option<int>): string {
    match code
    case None => "null"
    case Some(c) => IntToString(c)
  }

  // Each fixed diagnosis is written as a short head plus the rest, so that
  // the verifier can tell the texts apart by their first characters.
  const GenericDiagnosis: string := "Generic" + " error - could be network, video unavailable, or invalid URL"
  const DependencyDiagnosis: string := "Missing" + " dependency or invalid command line argument"
  const InterruptDiagnosis: string := "Interrupted" + " by user"
  const InvalidArgumentDiagnosis: string := "Invalid" + " argument"
  const BotDetectionDiagnosis: string := "YouTube" + " bot detection - request blocked by anti-automation measures"

  function AnalyzeExitCode(code: Option<int>): (d: string)
    ensures d == BotDetectionDiagnosis <==> code == Some(255)
    ensures code !in {Some(1), Some(2), Some(101), Some(128), Some(255)} ==>
      d == "Unknown exit code " + CodeText(code) + " - check yt-dlp documentation"
  {
    match code
    case Some(1) => assert GenericDiagnosis[0] != BotDetectionDiagnosis[0]; GenericDiagnosis
    case Some(2) => assert DependencyDiagnosis[0] != BotDetectionDiagnosis[0]; DependencyDiagnosis
    case Some(101) => assert InterruptDiagnosis[0] != BotDetectionDiagnosis[0]; InterruptDiagnosis
    case Some(128) => assert InvalidArgumentDiagnosis[0] != BotDetectionDiagnosis[0]; InvalidArgumentDiagnosis
    case Some(255) => BotDetectionDiagnosis
    case _ =>
      var d := "Unknown exit code " + CodeText(code) + " - check yt-dlp documentation";
      assert d[0] != BotDetectionDiagnosis[0];
      d
  }

  /** The diagnosis names the exit code: two close events get the same text
      only when they carry the same code (or both `null`). */
  lemma DiagnosisIdentifiesCode(a: Option<int>, b: Option<int>)
    requires AnalyzeExitCode(a) == AnalyzeExitCode(b)
    ensures a == b
  {
    var listed := {Some(1), Some(2), Some(101), Some(128), Some(255)};
    var pre := "Unknown exit code ";
    var post := " - check yt-dlp documentation";
    if a !in listed && b !in listed {
      var d := AnalyzeExitCode(a);
      assert CodeText(a) == d[|pre|..|d| - |post|];
      assert CodeText(b) == d[|pre|..|d| - |post|];
      CodeTextInjective(a, b);
    } else if a in listed && b in listed {
      var d := AnalyzeExitCode(a);
      assert d[0] == AnalyzeExitCode(b)[0] && d[2] == AnalyzeExitCode(b)[2];
    } else {
      assert AnalyzeExitCode(a)[0] == AnalyzeExitCode(b)[0];
    }
  }

  lemma CodeTextInjective(a: Option<int>, b: Option<int>)
    requires CodeText(a) == CodeText(b)
    ensures a == b
  {
    if a.Some? && b.Some? {
      IntToStringInjective(a.value, b.value);
    } else if a.Some? {
      IntToStringHead(a.value);
    } else if b.Some? {
      IntToStringHead(b.value);
    }
  }

  // ---------------------------------------------------------------------
  // the YouTube URL recogniser

  const Schemes: seq<string> := ["", "http://", "https://"]
  const WwwPrefixes: seq<string> := ["", "www."]
  const YoutubeHosts: seq<string> := ["youtube.com", "youtu.be"]

  /** Which alternative of `(https?:\/\/)?` applies: no optional group or
      alternative of the expression overlaps with what may follow it, so
      each is decided by the prefix present, without backtracking. */
  function SchemeOf(url: string): (i: nat)
    ensures i < 3 && StartsWith(url, Schemes[i])
  {
    if StartsWith(url, "https://") then 2 else if StartsWith(url, "http://") then 1 else 0
  }

  /** `(www\.)?` */
  function WwwOf(a: string): (j: nat)
    ensures j < 2 && StartsWith(a, WwwPrefixes[j])
  {
    if StartsWith(a, "www.") then 1 else 0
  }

  /** `(youtube\.com|youtu\.be)\/` */
  function HostOf(b: string): (k: Option<nat>)
    ensures k.Some? ==> k.value < 2 && StartsWith(b, YoutubeHosts[k.value] + "/")
  {
    if StartsWith(b, "youtube.com/") then Some(0)
    else if StartsWith(b, "youtu.be/") then Some(1)
    else None
  }

  /** `.+$`: a non-empty rest without line terminators. */
  predicate ValidRest(rest: string) {
    rest != [] && forall k :: 0 <= k < |rest| ==> !IsLineTerminator(rest[k])
  }

  /** `/^(https?:\/\/)?(www\.)?(youtube\.com|youtu\.be)\/.+$/.test(url)` */
  predicate IsYoutubeUrl(url: string) {
    var a := url[|Schemes[SchemeOf(url)]|..];
    var b := a[|WwwPrefixes[WwwOf(a)]|..];
    var k := HostOf(b);
    k.Some? && ValidRest(b[|YoutubeHosts[k.value]| + 1..])
  }

  /** The URL the expression describes, by its choices for each group. */
  function ComposeUrl(i: nat, j: nat, k: nat, rest: string): string
    requires i < 3 && j < 2 && k < 2
  {
    Schemes[i] + (WwwPrefixes[j] + (YoutubeHosts[k] + "/" + rest))
  }

  lemma SchemeOfComposed(i: nat, a: string)
    requires i < 3 && a != [] && (a[0] == 'w' || a[0] == 'y')
    ensures SchemeOf(Schemes[i] + a) == i
  {
    var u := Schemes[i] + a;
    if i == 0 {
      assert u[0] == a[0];
    } else if i == 1 {
      assert u[..7] == "http://";
      assert u[4] == ':';
    } else {
      assert u[..8] == "https://";
    }
  }

  lemma WwwOfComposed(j: nat, b: string)
    requires j < 2 && b != [] && b[0] == 'y'
    ensures WwwOf(WwwPrefixes[j] + b) == j
  {
    var u := WwwPrefixes[j] + b;
    if j == 0 {
      assert u[0] == 'y';
    } else {
      assert u[..4] == "www.";
    }
  }

  lemma HostOfComposed(k: nat, rest: string)
    requires k < 2
    ensures HostOf(YoutubeHosts[k] + "/" + rest) == Some(k)
  {
    var u := YoutubeHosts[k] + "/" + rest;
    if k == 0 {
      assert u[..12] == "youtube.com/";
    } else {
      assert u[5] == '.';
      assert u[..9] == "youtu.be/";
    }
  }

  /** Every URL the regular expression describes is accepted. */
  lemma YoutubeUrlAccepts(i: nat, j: nat, k: nat, rest: string)
    requires i < 3 && j < 2 && k < 2 && ValidRest(rest)
    ensures IsYoutubeUrl(ComposeUrl(i, j, k, rest))
  {
    var h := YoutubeHosts[k] + "/" + rest;
    var a := WwwPrefixes[j] + h;
    assert h[0] == 'y';
    assert a[0] == (if j == 1 then 'w' else 'y');
    SchemeOfComposed(i, a);
    assert (Schemes[i] + a)[|Schemes[i]|..] == a;
    WwwOfComposed(j, h);
    assert a[|WwwPrefixes[j]|..] == h;
    HostOfComposed(k, rest);
    assert h[|YoutubeHosts[k]| + 1..] == rest;
  }

  /** Every accepted URL is one the regular expression describes. */
  lemma YoutubeUrlDecomposes(url: string)
    requires IsYoutubeUrl(url)
    ensures exists i: nat, j: nat, k: nat, rest :: i < 3 && j < 2 && k < 2 && ValidRest(rest) && url == ComposeUrl(i, j, k, rest)
  {
    var i := SchemeOf(url);
    var a := url[|Schemes[i]|..];
    StartsWithSplit(url, Schemes[i]);
    var j := WwwOf(a);
    var b := a[|WwwPrefixes[j]|..];
    StartsWithSplit(a, WwwPrefixes[j]);
    var k := HostOf(b).value;
    var rest := b[|YoutubeHosts[k]| + 1..];
    StartsWithSplit(b, YoutubeHosts[k] + "/");
    assert url == ComposeUrl(i, j, k, rest);
    assert i < 3 && j < 2 && k < 2 && ValidRest(rest);
  }

  // ---------------------------------------------------------------------
  // the metadata lookup's outcome

  /** The close handler's classification of a failed lookup by its stderr text. */
  function ClassifyInfoFailure(stderr: string): (e: AppError)
    ensures e.statusCode in {400, 403, 404, 408}
    ensures e.statusCode == 403 <==> Includes(stderr, "Video unavailable") || Includes(stderr, "Private video")
    ensures e.statusCode == 404 <==> !(Includes(stderr, "Video unavailable") || Includes(stderr, "Private video"))
                                     && (Includes(stderr, "not found") || Includes(stderr, "No video"))
    ensures e.statusCode == 408 <==> !(Includes(stderr, "Video unavailable") || Includes(stderr, "Private video"))
                                     && !(Includes(stderr, "not found") || Includes(stderr, "No video"))
                                     && (Includes(stderr, "network") || Includes(stderr, "timeout"))
    ensures e.statusCode == 400 <==> !(Includes(stderr, "Video unavailable") || Includes(stderr, "Private video"))
                                     && !(Includes(stderr, "not found") || Includes(stderr, "No video"))
                                     && !(Includes(stderr, "network") || Includes(stderr, "timeout"))
    ensures e.statusCode == 403 ==> e.message == "Video is unavailable or private"
    ensures e.statusCode == 404 ==> e.message == "Video not found"
    ensures e.statusCode == 408 ==> e.message == "Network error - unable to access video"
    ensures e.statusCode == 400 ==> e.message == "Failed to get video information: " + stderr
  {
    if Includes(stderr, "Video unavailable") || Includes(stderr, "Private video") then
      AppError(403, "Video is unavailable or private")
    else if Includes(stderr, "not found") || Includes(stderr, "No video") then
      AppError(404, "Video not found")
    else if Includes(stderr, "network") || Includes(stderr, "timeout") then
      AppError(408, "Network error - unable to access video")
    else
      AppError(400, "Failed to get video information: " + stderr)
  }

  /** The same classification read as a rule table: the first rule one of
      whose phrases occurs in stderr decides, and no match falls through to
      the generic 400 with stderr appended. */
  datatype FailureRule = FailureRule(phrases: seq<string>, error: AppError)

  const InfoFailureRules: seq<FailureRule> := [
    FailureRule(["Video unavailable", "Private video"], AppError(403, "Video is unavailable or private")),
    FailureRule(["not found", "No video"], AppError(404, "Video not found")),
    FailureRule(["network", "timeout"], AppError(408, "Network error - unable to access video"))
  ]

  predicate AnyIncluded(s: string, phrases: seq<string>)
  {
    exists k :: 0 <= k < |phrases| && Includes(s, phrases[k])
  }

  function FirstRule(rules: seq<FailureRule>, s: string): (r: Option<AppError>)
    ensures r.Some? <==> exists k :: 0 <= k < |rules| && AnyIncluded(s, rules[k].phrases)
  {
    if rules == [] then None
    else if AnyIncluded(s, rules[0].phrases) then Some(rules[0].error)
    else
      var r := FirstRule(rules[1..], s);
      assert forall k :: 1 <= k < |rules| ==> rules[k] == rules[1..][k - 1];
      r
  }

  function ClassifyByRules(stderr: string): (e: AppError)
  {
    match FirstRule(InfoFailureRules, stderr)
    case Some(e) => e
    case None => AppError(400, "Failed to get video information: " + stderr)
  }

  lemma AnyOfTwo(s: string, x: string, y: string)
    ensures AnyIncluded(s, [x, y]) <==> Includes(s, x) || Includes(s, y)
  {
    if Includes(s, x) {
      assert Includes(s, [x, y][0]);
    } else if Includes(s, y) {
      assert Includes(s, [x, y][1]);
    }
  }

  lemma FirstOfThree(r0: FailureRule, r1: FailureRule, r2: FailureRule, s: string)
    ensures FirstRule([r0, r1, r2], s) ==
      if AnyIncluded(s, r0.phrases) then Some(r0.error)
      else if AnyIncluded(s, r1.phrases) then Some(r1.error)
      else if AnyIncluded(s, r2.phrases) then Some(r2.error)
      else None
  {
    assert [r0, r1, r2][1..] == [r1, r2];
    assert [r1, r2][1..] == [r2];
    assert [r2][1..] == [];
    assert FirstRule([r2], s) == if AnyIncluded(s, r2.phrases) then Some(r2.error) else FirstRule([], s);
    assert FirstRule([r1, r2], s) == if AnyIncluded(s, r1.phrases) then Some(r1.error) else FirstRule([r2], s);
  }

  /** The hand-written chain of tests and the rule table agree on every stderr. */
  lemma ClassifyMatchesRules(stderr: string)
    ensures ClassifyInfoFailure(stderr) == ClassifyByRules(stderr)
  {
    var rs := InfoFailureRules;
    FirstOfThree(rs[0], rs[1], rs[2], stderr);
    assert rs == [rs[0], rs[1], rs[2]];
    AnyOfTwo(stderr, "Video unavailable", "Private video");
    AnyOfTwo(stderr, "not found", "No video");
    AnyOfTwo(stderr, "network", "timeout");
  }

  /** What `JSON.parse` makes of the lookup's output: a value, read as the
      metadata record (a missing title reads as ""), or a syntax error. */
  datatype JsonOutcome = JsonInvalid | JsonValue(info: VideoInfo)

  /** How a metadata lookup's process ended. */
  datatype InfoEvent =
    | InfoClosed(code: Option<int>, stdout: string, stderr: string, parsed: JsonOutcome)
    | InfoProcessError        // the child process emitted 'error'
    | InfoWatchdogTimeout     // the 120 s timer fired first
    | InfoSpawnFailed         // exec threw

  /** `getVideoInfo` after its rate-limit wait: the URL check, then the
      outcome of the process. */
  function InfoLookup(url: string, ev: InfoEvent): (r: Result<VideoInfo, AppError>)
    ensures !IsYoutubeUrl(url) ==> r == Failure(AppError(400, "Invalid YouTube URL"))
    ensures IsYoutubeUrl(url) ==> r == InfoOutcome(ev)
    ensures r.Success? <==> IsYoutubeUrl(url) && ev.InfoClosed? && ev.code == Some(0) && !Blank(ev.stdout)
                            && ev.parsed.JsonValue? && ev.parsed.info.title != ""
    ensures r.Success? ==> r.value == ev.parsed.info
    ensures ev.InfoClosed? && ev.code != Some(0) && IsYoutubeUrl(url) ==> r == Failure(ClassifyInfoFailure(ev.stderr))
  {
    if !IsYoutubeUrl(url) then Failure(AppError(400, "Invalid YouTube URL")) else InfoOutcome(ev)
  }

  /** The lookup's outcome once the URL has passed. */
  function InfoOutcome(ev: InfoEvent): (r: Result<VideoInfo, AppError>)
    ensures r.Success? <==> ev.InfoClosed? && ev.code == Some(0) && !Blank(ev.stdout)
                            && ev.parsed.JsonValue? && ev.parsed.info.title != ""
  {
    match ev
    case InfoSpawnFailed => Failure(AppError(500, "Failed to execute yt-dlp command"))
    case InfoProcessError => Failure(AppError(500, "yt-dlp command failed to execute. Please ensure yt-dlp is installed."))
    case InfoWatchdogTimeout => Failure(AppError(408, "Request timeout - video information could not be retrieved"))
    case InfoClosed(code, out, err, parsed) =>
      if code != Some(0) then Failure(ClassifyInfoFailure(err))
      else if Trim(out) == "" then Failure(AppError(404, "No video information returned"))
      else
        match parsed
        case JsonInvalid => Failure(AppError(500, "Failed to parse video information"))
        case JsonValue(info) =>
          if info.title == "" then Failure(AppError(400, "Invalid video information received"))
          else Success(info)
  }

  // ---------------------------------------------------------------------
  // cool-downs

  /** MIN_REQUEST_INTERVAL, in milliseconds. */
  const MinRequestInterval: int := 8000

  /** The step multiplier for the n-th download launch (after the increment). */
  function CooldownMultiplier(requestCount: int): (m: int)
    ensures m in {1, 2, 3, 5}
  {
    if requestCount > 10 then 5
    else if requestCount > 6 then 3
    else if requestCount > 3 then 2
    else 1
  }

  lemma CooldownMultiplierSteps(a: int, b: int)
    ensures 1 <= a <= 3 ==> CooldownMultiplier(a) == 1
    ensures 4 <= a <= 6 ==> CooldownMultiplier(a) == 2
    ensures 7 <= a <= 10 ==> CooldownMultiplier(a) == 3
    ensures a >= 11 ==> CooldownMultiplier(a) == 5
    ensures a <= b ==> CooldownMultiplier(a) <= CooldownMultiplier(b)
  {
  }

  /** `Math.floor(baseInterval * randomFactor)` with `randomFactor` =
      `Math.random() * 0.5 + 0.75`, taken as a real in [0.75, 1.25). */
  function Cooldown(requestCount: int, randomFactor: real): (ms: int)
    requires 0.75 <= randomFactor < 1.25
    ensures 6000 * CooldownMultiplier(requestCount) <= ms < 10000 * CooldownMultiplier(requestCount)
    ensures ms as real <= (MinRequestInterval * CooldownMultiplier(requestCount)) as real * randomFactor < ms as real + 1.0
  {
    var m := CooldownMultiplier(requestCount);
    var x := (MinRequestInterval * m) as real * randomFactor;
    assert 6000.0 * m as real <= x < 10000.0 * m as real by {
      assert m == 1 || m == 2 || m == 3 || m == 5;
    }
    x.Floor
  }

  /** The wait of a rate-limited step: the rest of the required spacing when
      less than that has elapsed, and none otherwise. */
  function SpacingWait(elapsed: int, required: int): (wait: int)
    ensures wait >= 0
    ensures wait > 0 <==> elapsed < required
    ensures elapsed + wait >= required
    ensures wait > 0 ==> elapsed + wait == required
  {
    if elapsed < required then required - elapsed else 0
  }

  /** Two cool-downs read from one stamp at 0: the first launched at 1 s
      waits until 8 s, and the second, launched at 2 s during that wait,
      also goes on at 8 s. */
  lemma CooldownRaceExample()
    ensures 2000 < 1000 + SpacingWait(1000 - 0, Cooldown(1, 1.0))
    ensures 1000 + SpacingWait(1000 - 0, Cooldown(1, 1.0)) == 8000
    ensures 2000 + SpacingWait(2000 - 0, Cooldown(2, 1.0)) == 8000
  {
    assert Cooldown(1, 1.0) == 8000;
    assert Cooldown(2, 1.0) == 8000;
  }

  /** With the stamp at 0, a download launched at 1 s with factor 1.2 waits
      until 9.6 s; one launched at 2 s with factor 0.8, during that wait,
      goes on at 6.4 s, before the first. */
  lemma CooldownOvertakeExample()
    ensures 2000 < 1000 + SpacingWait(1000 - 0, Cooldown(1, 1.2))
    ensures 1000 + SpacingWait(1000 - 0, Cooldown(1, 1.2)) == 9600
    ensures 2000 + SpacingWait(2000 - 0, Cooldown(2, 0.8)) == 6400
  {
    assert Cooldown(1, 1.2) == 9600;
    assert Cooldown(2, 0.8) == 6400;
  }

  // ---------------------------------------------------------------------
  // paths

  /** `path.join(dir, name)` with '/' as separator and no normalisation. */
  function PathJoin(dir: string, name: string): (p: string)
    ensures EndsWith(p, name)
    ensures name != [] ==> p != []
  {
    if dir == [] then name
    else if EndsWith(dir, "/") then dir + name
    else dir + "/" + name
  }

  function LastIndexOfChar(s: string, c: char): (r: Option<nat>)
    ensures r.Some? ==> r.value < |s| && s[r.value] == c && forall k :: r.value < k < |s| ==> s[k] != c
    ensures r.None? ==> forall k :: 0 <= k < |s| ==> s[k] != c
  {
    if s == [] then None
    else if s[|s| - 1] == c then Some(|s| - 1)
    else LastIndexOfChar(s[..|s| - 1], c)
  }

  /** The last path segment. */
  function Basename(p: string): (b: string)
    ensures EndsWith(p, b) && '/' !in b
  {
    match LastIndexOfChar(p, '/')
    case None => p
    case Some(i) => p[i + 1..]
  }

  /** `path.extname(p)`: from the last dot of the last segment, unless that
      dot starts the segment or the segment is '..'. */
  function ExtName(p: string): (e: string)
    ensures e == [] || (e[0] == '.' && EndsWith(p, e))
  {
    var b := Basename(p);
    if b == ".." then ""
    else
      match LastIndexOfChar(b, '.')
      case None => ""
      case Some(d) => if d == 0 then "" else b[d..]
  }

  /** The extension the directory search expects, for the file name the
      service builds: the text after the dot it puts before the extension. */
  lemma ExtNameOfFilename(dir: string, title: string, ext: string)
    requires title != [] && ext != [] && '.' !in ext && '/' !in ext && '/' !in title
    ensures ExtName(PathJoin(dir, title + "." + ext)) == "." + ext
  {
    NameHasNoSlash(title, ext);
    BasenameOfJoin(dir, title + "." + ext);
    ExtNameOfSegment(PathJoin(dir, title + "." + ext), title, ext);
  }

  lemma NameHasNoSlash(title: string, ext: string)
    requires '/' !in ext && '/' !in title
    ensures '/' !in title + "." + ext
  {
    var name := title + "." + ext;
    forall k | 0 <= k < |name| ensures name[k] != '/' {
      if k < |title| { assert name[k] == title[k]; }
      else if k > |title| { assert name[k] == ext[k - |title| - 1]; }
    }
  }

  /** The extension depends only on the last segment. */
  lemma ExtNameOfSegment(p: string, title: string, ext: string)
    requires title != [] && ext != [] && '.' !in ext
    requires Basename(p) == title + "." + ext
    ensures ExtName(p) == "." + ext
  {
    var b := Basename(p);
    assert b != ".." by {
      assert b[|b| - 1] == ext[|ext| - 1] && ext[|ext| - 1] in ext;
    }
    LastDotOfName(title, ext);
    assert b[|title|..] == "." + ext;
  }

  lemma BasenameOfJoin(dir: string, name: string)
    requires '/' !in name
    ensures Basename(PathJoin(dir, name)) == name
  {
    var pre := if dir == [] then [] else if EndsWith(dir, "/") then dir else dir + "/";
    assert PathJoin(dir, name) == pre + name;
    LastIndexAfterFree(pre, name, '/');
    if pre != [] {
      assert pre[|pre| - 1] == '/';
      assert LastIndexOfChar(pre, '/') == Some(|pre| - 1);
      assert (pre + name)[|pre|..] == name;
    } else {
      assert pre + name == name;
    }
  }

  lemma LastDotOfName(title: string, ext: string)
    requires '.' !in ext
    ensures LastIndexOfChar(title + "." + ext, '.') == Some(|title|)
  {
    LastIndexAfterFree(title + ".", ext, '.');
    assert LastIndexOfChar(title + ".", '.') == Some(|title|);
  }

  /** Appending text free of `c` does not move the last `c`. */
  lemma {:induction false} LastIndexAfterFree(pre: string, post: string, c: char)
    requires c !in post
    ensures LastIndexOfChar(pre + post, c) == LastIndexOfChar(pre, c)
    decreases |post|
  {
    if post == [] {
      assert pre + post == pre;
    } else {
      assert (pre + post)[..|pre + post| - 1] == pre + post[..|post| - 1];
      assert post[|post| - 1] in post;
      LastIndexAfterFree(pre, post[..|post| - 1], c);
    }
  }

  /** `request.outputPath || defaultDir` */
  function OutputDir(request: DownloadRequest, downloadsPath: string): (dir: string)
    ensures request.outputPath.Some? && request.outputPath.value != "" ==> dir == request.outputPath.value
    ensures request.outputPath.None? || request.outputPath.value == "" ==> dir == downloadsPath
  {
    if request.outputPath.Some? && request.outputPath.value != "" then request.outputPath.value else downloadsPath
  }
}
