/** The HTTP handlers of the download API: the checks they make on a request
    before they reach the service, and the lazily created service they share.
    A handler answers with a response body or fails with an `AppError`. */
module DownloadController {
  import opened Wrappers
  import opened JsStrings
  import opened SharedTypes
  import opened Registry
  import opened YtDlpHelpers
  import opened YtDlpServiceModel

  /** A request body field, absent or a string. */
  predicate Falsy(field: Option<string>) {
    field.None? || field.value == ""
  }

  /** The body of `POST /download`. A missing `audioOnly` is false. */
  datatype DownloadBody = DownloadBody(
    url: Option<string>,
    format: Option<string>,
    quality: Option<string>,
    outputPath: Option<string>,
    audioOnly: bool)

  /** The output path forwarded to the service: only a value that is set, is
      not the placeholder 'string' and is not blank, and then untrimmed. */
  function ValidOutputPath(outputPath: Option<string>): (r: Option<string>)
    ensures r.Some? <==> outputPath.Some? && outputPath.value != "string" && !Blank(outputPath.value)
    ensures r.Some? ==> r == outputPath && r.value != ""
  {
    if outputPath.Some? && outputPath.value != "" && outputPath.value != "string" && Trim(outputPath.value) != "" then
      outputPath
    else None
  }

  /** downloadVideo's checks: the URL first, then the format; what passes
      becomes the request handed to startDownload. */
  function DownloadRequestOf(body: DownloadBody): (r: Result<DownloadRequest, AppError>)
    ensures Falsy(body.url) ==> r == Failure(AppError(400, "URL is required"))
    ensures !Falsy(body.url) && Falsy(body.format) ==> r == Failure(AppError(400, "Format is required"))
    ensures r.Success? <==> !Falsy(body.url) && !Falsy(body.format)
    ensures r.Success? ==> r.value == DownloadRequest(body.url.value, body.format.value, body.quality,
                                                      ValidOutputPath(body.outputPath), body.audioOnly)
  {
    if Falsy(body.url) then Failure(AppError(400, "URL is required"))
    else if Falsy(body.format) then Failure(AppError(400, "Format is required"))
    else Success(DownloadRequest(body.url.value, body.format.value, body.quality,
                                 ValidOutputPath(body.outputPath), body.audioOnly))
  }

  /** The output path a request ends up with never is the placeholder nor
      blank, so the service only falls back to its default folder for those. */
  lemma ForwardedPathIsUsable(body: DownloadBody, downloadsPath: string)
    requires DownloadRequestOf(body).Success?
    ensures DownloadRequestOf(body).value.outputPath.Some? ==>
      OutputDir(DownloadRequestOf(body).value, downloadsPath) == body.outputPath.value
    ensures body.outputPath.Some? && (body.outputPath.value == "string" || Blank(body.outputPath.value)) ==>
      OutputDir(DownloadRequestOf(body).value, downloadsPath) == downloadsPath
  {
  }

  /** validateUrl. */
  function ValidateUrl(url: Option<string>): (r: Result<string, AppError>)
    ensures Falsy(url) ==> r == Failure(AppError(400, "URL is required"))
    ensures !Falsy(url) && !IsYoutubeUrl(url.value) ==> r == Failure(AppError(400, "Invalid YouTube URL"))
    ensures r.Success? <==> !Falsy(url) && IsYoutubeUrl(url.value)
    ensures r.Success? ==> r.value == "Valid YouTube URL"
  {
    if Falsy(url) then Failure(AppError(400, "URL is required"))
    else if !IsYoutubeUrl(url.value) then Failure(AppError(400, "Invalid YouTube URL"))
    else Success("Valid YouTube URL")
  }

  /** The controller's getVideoInfo: a query parameter that is missing or
      empty is refused, anything else goes to the service's lookup. */
  function VideoInfoQuery(url: Option<string>, ev: InfoEvent): (r: Result<VideoInfo, AppError>)
    ensures Falsy(url) ==> r == Failure(AppError(400, "URL is required"))
    ensures r.Success? ==> !Falsy(url) && IsYoutubeUrl(url.value)
    ensures !Falsy(url) && !IsYoutubeUrl(url.value) ==> r == Failure(AppError(400, "Invalid YouTube URL"))
    ensures !Falsy(url) ==> r == InfoLookup(url.value, ev)
  {
    if Falsy(url) then Failure(AppError(400, "URL is required")) else InfoLookup(url.value, ev)
  }

  /** The controller and the service test URLs with the same expression:
      a URL validateUrl accepts goes past the lookup's own check to the
      process, and a URL it refuses as invalid is refused by the lookup in
      the same words. */
  lemma ValidationAgreesWithLookup(url: string, ev: InfoEvent)
    requires url != ""
    ensures ValidateUrl(Some(url)).Success? ==> InfoLookup(url, ev) == InfoOutcome(ev)
    ensures ValidateUrl(Some(url)).Failure? ==> InfoLookup(url, ev) == Failure(ValidateUrl(Some(url)).error)
  {
  }

  /** getAvailableFormats's answer. */
  datatype FormatLists = FormatLists(video: seq<string>, audio: seq<string>, quality: seq<string>)

  function AvailableFormats(): (f: FormatLists)
    ensures f.video == VideoFormats && f.audio == AudioFormats
    ensures |f.quality| == 7 && f.quality[6] == "best"
  {
    FormatLists(VideoFormats, AudioFormats, ["360p", "480p", "720p", "1080p", "1440p", "2160p", "best"])
  }

  /** Every offered audio format names the extension of its file. */
  lemma OfferedAudioFormatsKeepExtension(f: string)
    requires f in AvailableFormats().audio
    ensures IsAudioRequest(f, false) && GetFileExtension(f, false) == f
  {
  }

  /** Every offered quality other than 'best' becomes a plain numeric height. */
  lemma OfferedQualitiesAreHeights(k: nat)
    requires k < 6
    ensures exists d :: d != [] && AllDigits(d) && AvailableFormats().quality[k] == d + "p" && QualityHeight(d + "p") == d
  {
    var d := ["360", "480", "720", "1080", "1440", "2160"][k];
    assert AvailableFormats().quality[k] == d + "p";
    QualityHeightOfDigits(d);
  }

  /** The offered video formats other than mp4 keep their own extension, and
      mp4 is the default. */
  lemma OfferedVideoFormatsKeepExtension(f: string)
    requires f in VideoFormats && ToLowerCase(f) == f
    ensures GetFileExtension(f, false) == f
  {
    assert f !in AudioFormats;
  }

  /** The module-level service and the handlers that use it. */
  class Controller {
    var ytDlpService: YtDlpService?

    predicate Valid()
      reads this, ytDlpService
    {
      ytDlpService != null ==> ytDlpService.Valid()
    }

    constructor ()
      ensures ytDlpService == null
    {
      ytDlpService := null;
    }

    /** getYtDlpService: create the service on first use, then always hand
        out the same one. */
    method GetYtDlpService() returns (s: YtDlpService)
      requires Valid()
      modifies this
      ensures Valid()
      ensures ytDlpService == s
      ensures old(ytDlpService) != null ==> s == old(ytDlpService)
      ensures old(ytDlpService) == null ==> fresh(s) && s.downloads == [] && s.activeProcesses == {}
                                            && s.requestCount == 0 && s.lastRequestTime == 0 && s.cleanupTimerArmed
    {
      if ytDlpService == null {
        ytDlpService := new YtDlpService();
      }
      s := ytDlpService;
    }

    /** downloadVideo: on a valid body, exactly one startDownload, answered
        with the id it returns. `downloadId` is the id the service generates. */
    method DownloadVideo(body: DownloadBody, downloadId: string) returns (r: Result<DownloadResponse, AppError>)
      requires Valid()
      modifies this, ytDlpService
      ensures Valid()
      ensures DownloadRequestOf(body).Failure? ==>
        r == Failure(DownloadRequestOf(body).error) && ytDlpService == old(ytDlpService)
        && (ytDlpService != null ==> ytDlpService.downloads == old(ytDlpService.downloads))
      ensures DownloadRequestOf(body).Success? ==>
        r == Success(DownloadResponse(true, Some(downloadId), None, None, Some("Download started successfully")))
        && ytDlpService != null && (old(ytDlpService) != null ==> ytDlpService == old(ytDlpService))
      ensures DownloadRequestOf(body).Success? && old(ytDlpService) != null ==>
        var before := old(ytDlpService.downloads);
        ytDlpService.downloads == Set(before, downloadId,
          if CountStatus(before, Downloading) >= ConcurrencyLimit then NewJob(downloadId, Queued, QueuedFilename)
          else NewJob(downloadId, Downloading, PreparingFilename))
      ensures DownloadRequestOf(body).Success? && old(ytDlpService) == null ==>
        ytDlpService.downloads == [Entry(downloadId, NewJob(downloadId, Downloading, PreparingFilename))]
      ensures old(ytDlpService) != null ==>
        ytDlpService.requestCount == old(ytDlpService.requestCount)
        && ytDlpService.lastRequestTime == old(ytDlpService.lastRequestTime)
        && ytDlpService.activeProcesses == old(ytDlpService.activeProcesses)
        && ytDlpService.cleanupTimerArmed == old(ytDlpService.cleanupTimerArmed)
      ensures DownloadRequestOf(body).Success? && old(ytDlpService) == null ==>
        ytDlpService.requestCount == 0 && ytDlpService.lastRequestTime == 0
        && ytDlpService.activeProcesses == {} && ytDlpService.cleanupTimerArmed
    {
      var checked := DownloadRequestOf(body);
      if checked.Failure? {
        return Failure(checked.error);
      }
      var service := GetYtDlpService();
      var id, _ := service.StartDownload(checked.value, downloadId);
      r := Success(DownloadResponse(true, Some(id), None, None, Some("Download started successfully")));
    }

    /** getDownloadProgress: the record, or 404 for an unknown id. */
    method GetDownloadProgress(id: string) returns (r: Result<DownloadProgress, AppError>)
      requires Valid()
      modifies this
      ensures Valid() && ytDlpService != null
      ensures old(ytDlpService) != null ==> ytDlpService == old(ytDlpService)
      ensures r.Failure? <==> id !in Ids(ytDlpService.downloads)
      ensures r.Failure? ==> r.error == AppError(404, "Download not found")
      ensures r.Success? ==> Get(ytDlpService.downloads, id) == Some(r.value)
    {
      var service := GetYtDlpService();
      var progress := service.GetDownloadProgress(id);
      if progress.None? {
        return Failure(AppError(404, "Download not found"));
      }
      r := Success(progress.value);
    }
  }
}
