/** The frontend's download store: the record of what the page shows, the
    jobs it tracks by id, and the three most recent downloads. Every action
    builds its new value from a copy of the old one and replaces the field. */
module DownloadStore {
  import opened Wrappers
  import opened SharedTypes
  import opened Registry

  datatype RecentDownload = RecentDownload(
    title: string,
    format: string,
    quality: string,
    time: string,
    size: string,
    path: Option<string>)

  /** How many recent downloads the list keeps. */
  const RecentLimit: nat := 3

  /** `[download, ...recent.slice(0, 2)]` */
  function AddRecent(recent: seq<RecentDownload>, download: RecentDownload): (r: seq<RecentDownload>)
    ensures |r| == if |recent| < RecentLimit - 1 then |recent| + 1 else RecentLimit
    ensures r[0] == download
    ensures r[1..] == recent[..|r| - 1]
  {
    [download] + (if |recent| <= 2 then recent else recent[..2])
  }

  function Reverse<T>(xs: seq<T>): (r: seq<T>)
    ensures |r| == |xs|
    ensures forall k :: 0 <= k < |xs| ==> r[k] == xs[|xs| - 1 - k]
  {
    if xs == [] then [] else Reverse(xs[1..]) + [xs[0]]
  }

  /** addRecentDownload applied once per item, in order. */
  function AddRecentAll(recent: seq<RecentDownload>, items: seq<RecentDownload>): seq<RecentDownload>
    decreases |items|
  {
    if items == [] then recent
    else AddRecentAll(AddRecent(recent, items[0]), items[1..])
  }

  function Min(a: nat, b: nat): nat {
    if a < b then a else b
  }

  /** Whatever was added, the list holds the latest additions, newest
      first, followed by what it held before, cut at three. */
  lemma {:induction false} RecentKeepsLatest(recent: seq<RecentDownload>, items: seq<RecentDownload>)
    requires |recent| <= RecentLimit
    ensures AddRecentAll(recent, items) == (Reverse(items) + recent)[..Min(RecentLimit, |items| + |recent|)]
    decreases |items|
  {
    if items != [] {
      var next := AddRecent(recent, items[0]);
      RecentKeepsLatest(next, items[1..]);
      var n := Min(RecentLimit, |items| + |recent|);
      var lhs := (Reverse(items[1..]) + next)[..Min(RecentLimit, |items| - 1 + |next|)];
      var rhs := (Reverse(items) + recent)[..n];
      assert Reverse(items) == Reverse(items[1..]) + [items[0]];
      assert |lhs| == |rhs|;
      forall k | 0 <= k < |lhs| ensures lhs[k] == rhs[k] {
        if k >= |items| - 1 {
          var t := k - (|items| - 1);
          assert lhs[k] == next[t];
          if t > 0 {
            assert next[t] == next[1..][t - 1] == recent[t - 1];
          }
        }
      }
    }
  }

  class Store {
    var currentVideo: Option<VideoInfo>
    var downloads: seq<Entry>
    var isLoading: bool
    var isLoadingInfo: bool
    var isDownloading: bool
    var error: Option<string>
    var currentDownloadId: Option<string>
    var downloadProgress: real
    var downloadSpeed: string
    var timeRemaining: string
    var recentDownloads: seq<RecentDownload>
    var isValidUrl: Option<bool>

    predicate Valid()
      reads this
    {
      UniqueIds(downloads) && |recentDownloads| <= RecentLimit
    }

    /** The store's initial state. */
    constructor ()
      ensures Valid()
      ensures currentVideo == None && downloads == [] && !isLoading && !isLoadingInfo && !isDownloading
      ensures error == None && currentDownloadId == None && downloadProgress == 0.0
      ensures downloadSpeed == "0 MB/s" && timeRemaining == "--:--"
      ensures recentDownloads == [] && isValidUrl == None
    {
      currentVideo := None;
      downloads := [];
      isLoading := false;
      isLoadingInfo := false;
      isDownloading := false;
      error := None;
      currentDownloadId := None;
      downloadProgress := 0.0;
      downloadSpeed := "0 MB/s";
      timeRemaining := "--:--";
      recentDownloads := [];
      isValidUrl := None;
    }

    /** Everything except the downloads map is as it was. */
    twostate predicate OthersUnchanged()
      reads this
    {
      && currentVideo == old(currentVideo) && isLoading == old(isLoading)
      && isLoadingInfo == old(isLoadingInfo) && isDownloading == old(isDownloading)
      && error == old(error) && currentDownloadId == old(currentDownloadId)
      && downloadProgress == old(downloadProgress) && downloadSpeed == old(downloadSpeed)
      && timeRemaining == old(timeRemaining) && recentDownloads == old(recentDownloads)
      && isValidUrl == old(isValidUrl)
    }

    /** addDownload: store the record under its own id. */
    method AddDownload(download: DownloadProgress)
      requires Valid()
      modifies this
      ensures Valid()
      ensures downloads == Set(old(downloads), download.downloadId, download)
      ensures Get(downloads, download.downloadId) == Some(download)
      ensures OthersUnchanged()
    {
      var newDownloads := downloads;
      newDownloads := Set(newDownloads, download.downloadId, download);
      downloads := newDownloads;
    }

    /** updateDownload: merge the fields into a record that exists. */
    method UpdateDownload(id: string, progress: Patch)
      requires Valid()
      modifies this
      ensures Valid()
      ensures downloads == Update(old(downloads), id, progress)
      ensures OthersUnchanged()
    {
      UpdateSpec(downloads, id, progress);
      var newDownloads := downloads;
      var current := Get(newDownloads, id);
      if current.Some? {
        newDownloads := Set(newDownloads, id, Merge(current.value, progress));
      }
      downloads := newDownloads;
    }

    /** removeDownload: delete the key. */
    method RemoveDownload(id: string)
      requires Valid()
      modifies this
      ensures Valid()
      ensures downloads == Remove(old(downloads), id)
      ensures Get(downloads, id) == None
      ensures forall other :: other != id ==> Get(downloads, other) == Get(old(downloads), other)
      ensures OthersUnchanged()
    {
      RemoveSpec(downloads, id);
      var newDownloads := downloads;
      newDownloads := Remove(newDownloads, id);
      downloads := newDownloads;
    }

    /** addRecentDownload. */
    method AddRecentDownload(download: RecentDownload)
      requires Valid()
      modifies this
      ensures Valid()
      ensures recentDownloads == AddRecent(old(recentDownloads), download)
      ensures downloads == old(downloads) && currentVideo == old(currentVideo) && error == old(error)
      ensures isLoading == old(isLoading) && isLoadingInfo == old(isLoadingInfo) && isDownloading == old(isDownloading)
      ensures currentDownloadId == old(currentDownloadId) && downloadProgress == old(downloadProgress)
      ensures downloadSpeed == old(downloadSpeed) && timeRemaining == old(timeRemaining) && isValidUrl == old(isValidUrl)
    {
      recentDownloads := AddRecent(recentDownloads, download);
    }

    /** clearAll: forget the jobs, the current video, the error and the
        current download; the recent list, the rate texts and the loading and
        validity flags stay. */
    method ClearAll()
      requires Valid()
      modifies this
      ensures Valid()
      ensures downloads == [] && currentVideo == None && error == None && !isDownloading
      ensures downloadProgress == 0.0 && currentDownloadId == None
      ensures recentDownloads == old(recentDownloads) && downloadSpeed == old(downloadSpeed)
      ensures timeRemaining == old(timeRemaining) && isValidUrl == old(isValidUrl)
      ensures isLoading == old(isLoading) && isLoadingInfo == old(isLoadingInfo)
    {
      downloads := [];
      currentVideo := None;
      error := None;
      isDownloading := false;
      downloadProgress := 0.0;
      currentDownloadId := None;
    }
  }
}
