/** The record and enumeration shapes shared by the backend and the frontend:
    a download job's progress record, the partial update merged into it, a
    download request, video metadata, the HTTP response body and the
    backend's operational error. */
module SharedTypes {
  import opened Wrappers

  /** The members of the `VideoFormat`, `AudioFormat` and `VideoQuality` unions. */
  const VideoFormats: seq<string> := ["mp4", "webm", "mkv", "avi"]
  const AudioFormats: seq<string> := ["mp3", "aac", "flac", "wav"]
  const VideoQualities: seq<string> := ["360p", "480p", "720p", "1080p", "1440p", "2160p", "4k", "best"]

  datatype Status = Pending | Queued | Downloading | Processing | Completed | Error

  /** A job record. Optional fields are `None` where the object has no such key. */
  datatype DownloadProgress = DownloadProgress(
    downloadId: string,
    status: Status,
    progress: Option<real>,
    speed: Option<string>,
    eta: Option<string>,
    fileSize: Option<string>,
    downloadedSize: Option<string>,
    filePath: Option<string>,
    filename: Option<string>,
    error: Option<string>)

  /** A fresh job record with the given status, progress 0 and a display name. */
  function NewJob(id: string, status: Status, filename: string): (p: DownloadProgress)
    ensures p.downloadId == id && p.status == status && p.progress == Some(0.0)
    ensures p.filename == Some(filename) && p.error.None? && p.filePath.None?
  {
    DownloadProgress(id, status, Some(0.0), None, None, None, None, None, Some(filename), None)
  }

  /** A `Partial<DownloadProgress>`: the keys it names, other than the id. */
  datatype Patch = Patch(
    status: Option<Status>,
    progress: Option<real>,
    speed: Option<string>,
    eta: Option<string>,
    fileSize: Option<string>,
    downloadedSize: Option<string>,
    filePath: Option<string>,
    filename: Option<string>,
    error: Option<string>)

  const NoChange: Patch := Patch(None, None, None, None, None, None, None, None, None)

  function Override<T>(old_: Option<T>, new_: Option<T>): Option<T> {
    if new_.Some? then new_ else old_
  }

  /** `{ ...current, ...update }`: every key the patch names overrides. */
  function Merge(cur: DownloadProgress, p: Patch): DownloadProgress {
    cur.(status := p.status.GetOr(cur.status),
         progress := Override(cur.progress, p.progress),
         speed := Override(cur.speed, p.speed),
         eta := Override(cur.eta, p.eta),
         fileSize := Override(cur.fileSize, p.fileSize),
         downloadedSize := Override(cur.downloadedSize, p.downloadedSize),
         filePath := Override(cur.filePath, p.filePath),
         filename := Override(cur.filename, p.filename),
         error := Override(cur.error, p.error))
  }

  /** The single patch equivalent to applying `p` and then `q`. */
  function Then(p: Patch, q: Patch): Patch {
    Patch(Override(p.status, q.status), Override(p.progress, q.progress),
          Override(p.speed, q.speed), Override(p.eta, q.eta),
          Override(p.fileSize, q.fileSize), Override(p.downloadedSize, q.downloadedSize),
          Override(p.filePath, q.filePath), Override(p.filename, q.filename),
          Override(p.error, q.error))
  }

  lemma MergeLaws(cur: DownloadProgress, p: Patch, q: Patch)
    ensures Merge(cur, NoChange) == cur
    ensures Merge(Merge(cur, p), p) == Merge(cur, p)
    ensures Merge(Merge(cur, p), q) == Merge(cur, Then(p, q))
    ensures Merge(cur, p).downloadId == cur.downloadId
  {
  }

  datatype DownloadRequest = DownloadRequest(
    url: string,
    format: string,
    quality: Option<string>,
    outputPath: Option<string>,
    audioOnly: bool)

  datatype FormatInfo = FormatInfo(
    formatId: string,
    ext: string,
    quality: string,
    filesize: Option<nat>,
    fps: Option<real>,
    vcodec: Option<string>,
    acodec: Option<string>)

  datatype VideoInfo = VideoInfo(
    title: string,
    duration: nat,
    thumbnail: string,
    channel: string,
    description: Option<string>,
    uploadDate: Option<string>,
    viewCount: Option<nat>,
    availableFormats: Option<seq<FormatInfo>>)

  datatype DownloadResponse = DownloadResponse(
    success: bool,
    downloadId: Option<string>,
    filePath: Option<string>,
    error: Option<string>,
    message: Option<string>)

  /** The backend's operational error: an HTTP status and a message. */
  datatype AppError = AppError(statusCode: int, message: string)
}
