/** The video vault's operations (video_vault_operations.py): the video
    information cache with its seven-day expiry, the vault listing, and
    export. Time is a parameter `now` in whole seconds; a file's stat is a
    parameter (None when stat raises), and so is the duration probe's
    answer. */
module VideoVaultOps {
  import opened Wrappers
  import opened Strings
  import Paths
  import Sorting
  import Export
  import VideoCore

  const VideoNotFound := "Video not found"

  /** Entries older than seven days are dropped from the cache. */
  const MaxAge := 7 * 24 * 3600

  /** What stat reports: the modification time as it prints, and the size. */
  datatype FileStat = FileStat(mtimeText: string, size: nat)

  /** A cache entry: the size, the duration text and when it was cached
      (entries loaded from an older cache file may lack the time). The
      fallback for a file that cannot be stat-ed is Unknown. */
  datatype VideoInfo =
    | Info(sizeBytes: nat, duration: string, cachedAt: Option<int>)
    | Unknown

  /** The cache key: the path, the modification time and the size. */
  function CacheKey(path: string, st: FileStat): string {
    path + "_" + st.mtimeText + "_" + NatToString(st.size)
  }

  /** A missing cache time counts as 0. */
  function CachedAt(info: VideoInfo): int {
    if info.Info? && info.cachedAt.Some? then info.cachedAt.value else 0
  }

  predicate Stale(info: VideoInfo, now: int) {
    now - CachedAt(info) > MaxAge
  }

  /** The keys cleanup_video_info_cache removes. */
  function StaleKeys(cache: map<string, VideoInfo>, now: int): set<string> {
    set k | k in cache && Stale(cache[k], now)
  }

  /** The cache after cleanup. */
  function Fresh(cache: map<string, VideoInfo>, now: int): map<string, VideoInfo> {
    cache - StaleKeys(cache, now)
  }

  /** Cleanup keeps exactly the entries that are not stale, unchanged. */
  lemma FreshEntries(cache: map<string, VideoInfo>, now: int, k: string)
    ensures k in Fresh(cache, now) <==> k in cache && !Stale(cache[k], now)
    ensures k in Fresh(cache, now) ==> Fresh(cache, now)[k] == cache[k]
  {
  }

  /** A second cleanup at the same time removes nothing. */
  lemma FreshIdempotent(cache: map<string, VideoInfo>, now: int)
    ensures StaleKeys(Fresh(cache, now), now) == {}
    ensures Fresh(Fresh(cache, now), now) == Fresh(cache, now)
  {
    var f := Fresh(cache, now);
    forall k | k in f ensures !Stale(f[k], now) {
      FreshEntries(cache, now, k);
    }
    assert f - {} == f;
  }

  /** An entry just stored survives the cleanup that follows it, and stays
      until it is seven days old. */
  lemma NewEntrySurvives(cache: map<string, VideoInfo>, key: string, info: VideoInfo, cachedAt: int, now: int)
    requires info.Info? && info.cachedAt == Some(cachedAt)
    requires cachedAt <= now <= cachedAt + MaxAge
    ensures key in Fresh(cache[key := info], now) && Fresh(cache[key := info], now)[key] == info
  {
    FreshEntries(cache[key := info], now, key);
  }

  /** A listed file in the vault: its name and modification time. */
  datatype Entry = Entry(name: string, mtime: int)

  datatype VideoFile = VideoFile(path: string, mtime: int)

  function Mtime(v: VideoFile): int { v.mtime }

  /** What one listed entry contributes: its video file, if its name is a
      video's. */
  function Found(vaultDir: string, e: Entry): seq<VideoFile> {
    if VideoCore.IsValidVideo(e.name) then [VideoFile(Paths.Join(vaultDir, e.name), e.mtime)] else []
  }

  /** The listed files whose names are videos, in listing order. */
  function VideoFiles(vaultDir: string, entries: seq<Entry>): (r: seq<VideoFile>)
    ensures |r| <= |entries|
  {
    if entries == [] then []
    else VideoFiles(vaultDir, entries[..|entries| - 1]) + Found(vaultDir, entries[|entries| - 1])
  }

  lemma VideoFilesNext(vaultDir: string, entries: seq<Entry>, i: nat)
    requires i < |entries|
    ensures VideoFiles(vaultDir, entries[..i + 1]) == VideoFiles(vaultDir, entries[..i]) + Found(vaultDir, entries[i])
  {
    assert entries[..i + 1][..i] == entries[..i];
  }

  /** `v` is the video file for the listed entry `e`. */
  predicate FileFor(vaultDir: string, e: Entry, v: VideoFile) {
    VideoCore.IsValidVideo(e.name) && v == VideoFile(Paths.Join(vaultDir, e.name), e.mtime)
  }

  lemma FoundIs(vaultDir: string, e: Entry, v: VideoFile)
    ensures v in Found(vaultDir, e) <==> FileFor(vaultDir, e, v)
  {
  }

  lemma InConcat(v: VideoFile, a: seq<VideoFile>, b: seq<VideoFile>)
    ensures v in a + b <==> v in a || v in b
  {
  }

  /** The listed entry a found video file comes from. */
  lemma {:induction false} FileIndex(vaultDir: string, entries: seq<Entry>, v: VideoFile) returns (k: nat)
    requires v in VideoFiles(vaultDir, entries)
    ensures k < |entries| && FileFor(vaultDir, entries[k], v)
    decreases |entries|
  {
    var init, last := entries[..|entries| - 1], entries[|entries| - 1];
    assert VideoFiles(vaultDir, entries) == VideoFiles(vaultDir, init) + Found(vaultDir, last);
    InConcat(v, VideoFiles(vaultDir, init), Found(vaultDir, last));
    if v in VideoFiles(vaultDir, init) {
      k := FileIndex(vaultDir, init, v);
      assert init[k] == entries[k];
    } else {
      FoundIs(vaultDir, last, v);
      k := |entries| - 1;
    }
  }

  /** Every video file found comes from a listed video name ... */
  lemma VideoFilesSound(vaultDir: string, entries: seq<Entry>, v: VideoFile)
    requires v in VideoFiles(vaultDir, entries)
    ensures exists k :: 0 <= k < |entries| && FileFor(vaultDir, entries[k], v)
  {
    var k := FileIndex(vaultDir, entries, v);
  }

  /** ... and every listed video name gives one. */
  lemma {:induction false} VideoFilesFind(vaultDir: string, entries: seq<Entry>, k: nat, v: VideoFile)
    requires k < |entries| && v in Found(vaultDir, entries[k])
    ensures v in VideoFiles(vaultDir, entries)
    decreases |entries|
  {
    var init := entries[..|entries| - 1];
    if k < |init| {
      assert init[k] == entries[k];
      VideoFilesFind(vaultDir, init, k, v);
      KeepsEarlier(vaultDir, entries, v);
    } else {
      FoundLast(vaultDir, entries, v);
    }
  }

  lemma KeepsEarlier(vaultDir: string, entries: seq<Entry>, v: VideoFile)
    requires entries != [] && v in VideoFiles(vaultDir, entries[..|entries| - 1])
    ensures v in VideoFiles(vaultDir, entries)
  {
    var init, last := entries[..|entries| - 1], entries[|entries| - 1];
    InConcat(v, VideoFiles(vaultDir, init), Found(vaultDir, last));
  }

  lemma FoundLast(vaultDir: string, entries: seq<Entry>, v: VideoFile)
    requires entries != [] && v in Found(vaultDir, entries[|entries| - 1])
    ensures v in VideoFiles(vaultDir, entries)
  {
    var init, last := entries[..|entries| - 1], entries[|entries| - 1];
    InConcat(v, VideoFiles(vaultDir, init), Found(vaultDir, last));
  }

  /** A video file is found exactly for each listed video name. */
  lemma VideoFilesComplete(vaultDir: string, entries: seq<Entry>, v: VideoFile)
    ensures v in VideoFiles(vaultDir, entries) <==> exists k :: 0 <= k < |entries| && FileFor(vaultDir, entries[k], v)
  {
    if v in VideoFiles(vaultDir, entries) {
      VideoFilesSound(vaultDir, entries, v);
    }
    if exists k :: 0 <= k < |entries| && FileFor(vaultDir, entries[k], v) {
      var k :| 0 <= k < |entries| && FileFor(vaultDir, entries[k], v);
      FoundIs(vaultDir, entries[k], v);
      VideoFilesFind(vaultDir, entries, k, v);
    }
  }

  /** sorted(..., key=getmtime, reverse=True). */
  function NewestFirst(files: seq<VideoFile>): seq<VideoFile> {
    Sorting.SortDescBy(files, Mtime)
  }

  function PathsOf(files: seq<VideoFile>): (r: seq<string>)
    ensures |r| == |files| && forall i :: 0 <= i < |r| ==> r[i] == files[i].path
  {
    if files == [] then [] else [files[0].path] + PathsOf(files[1..])
  }

  /** get_vault_videos' answer for an existing vault. */
  function VaultVideos(vaultDir: string, entries: seq<Entry>): seq<string> {
    PathsOf(NewestFirst(VideoFiles(vaultDir, entries)))
  }

  /** The listing holds the vault path of every video name, newest first. */
  lemma VaultVideosListing(vaultDir: string, entries: seq<Entry>)
    ensures var sorted := NewestFirst(VideoFiles(vaultDir, entries));
      && VaultVideos(vaultDir, entries) == PathsOf(sorted)
      && (forall i, j :: 0 <= i < j < |sorted| ==> sorted[i].mtime >= sorted[j].mtime)
      && (forall v :: v in sorted <==> exists k :: 0 <= k < |entries| && FileFor(vaultDir, entries[k], v))
  {
    var files := VideoFiles(vaultDir, entries);
    var sorted := NewestFirst(files);
    assert Sorting.SortedDescBy(sorted, Mtime);
    forall v ensures v in sorted <==> v in files {
      assert v in sorted <==> v in multiset(sorted);
      assert v in files <==> v in multiset(files);
    }
    forall v ensures v in files <==> exists k :: 0 <= k < |entries| && FileFor(vaultDir, entries[k], v) {
      VideoFilesComplete(vaultDir, entries, v);
    }
  }

  /** The listing loop: the vault's files whose names are videos. */
  method ListVideoFiles(vaultDir: string, entries: seq<Entry>) returns (found: seq<VideoFile>)
    ensures found == VideoFiles(vaultDir, entries)
  {
    found := [];
    var i := 0;
    while i < |entries|
      invariant i <= |entries|
      invariant found == VideoFiles(vaultDir, entries[..i])
    {
      VideoFilesNext(vaultDir, entries, i);
      if VideoCore.IsValidVideo(entries[i].name) {
        found := found + [VideoFile(Paths.Join(vaultDir, entries[i].name), entries[i].mtime)];
      }
      i := i + 1;
    }
    assert entries[..i] == entries;
  }

  class VideoVault {
    const vaultDir: string
    /** The in-memory video information cache. */
    var cache: map<string, VideoInfo>
    /** The cache file's contents as last saved. */
    var saved: map<string, VideoInfo>
    var disk: set<string>

    constructor (vaultDir: string, loaded: map<string, VideoInfo>, disk: set<string>)
      ensures this.vaultDir == vaultDir && cache == loaded && saved == loaded && this.disk == disk
    {
      this.vaultDir := vaultDir;
      cache, saved := loaded, loaded;
      this.disk := disk;
    }

    /** cleanup_video_info_cache: stale entries go, and the file is saved
        only when something went. */
    method CleanupCache(now: int)
      modifies this`cache, this`saved
      ensures cache == Fresh(old(cache), now)
      ensures saved == if StaleKeys(old(cache), now) != {} then cache else old(saved)
    {
      var toRemove: set<string> := {};
      var pending := cache.Keys;
      while pending != {}
        invariant pending <= cache.Keys
        invariant toRemove == set k | k in cache && k !in pending && Stale(cache[k], now)
        decreases pending
      {
        var k :| k in pending;
        if Stale(cache[k], now) {
          toRemove := toRemove + {k};
        }
        pending := pending - {k};
      }
      cache := cache - toRemove;
      if toRemove != {} {
        saved := cache;
      }
    }

    /** get_video_info_safe: a hit is returned as cached; a miss is probed,
        stored with the current time, and followed by a cleanup; a file
        that cannot be stat-ed gives Unknown and caches nothing. */
    method GetVideoInfo(path: string, stat: Option<FileStat>, duration: string, now: int) returns (info: VideoInfo)
      modifies this`cache, this`saved
      ensures stat.None? ==> info == Unknown && cache == old(cache) && saved == old(saved)
      ensures stat.Some? && CacheKey(path, stat.value) in old(cache) ==>
        info == old(cache)[CacheKey(path, stat.value)] && cache == old(cache) && saved == old(saved)
      ensures stat.Some? && CacheKey(path, stat.value) !in old(cache) ==>
        && info == Info(stat.value.size, duration, Some(now))
        && cache == Fresh(old(cache)[CacheKey(path, stat.value) := info], now)
        && CacheKey(path, stat.value) in cache && cache[CacheKey(path, stat.value)] == info
        && saved == if StaleKeys(old(cache)[CacheKey(path, stat.value) := info], now) != {} then cache else old(saved)
    {
      if stat.None? {
        return Unknown;
      }
      var key := CacheKey(path, stat.value);
      if key in cache {
        return cache[key];
      }
      info := Info(stat.value.size, duration, Some(now));
      cache := cache[key := info];
      NewEntrySurvives(old(cache), key, info, now, now);
      CleanupCache(now);
    }

    /** get_vault_videos: an absent vault lists nothing. */
    method GetVaultVideos(vaultExists: bool, entries: seq<Entry>) returns (videos: seq<string>)
      ensures videos == if vaultExists then VaultVideos(vaultDir, entries) else []
    {
      if !vaultExists {
        return [];
      }
      var found := ListVideoFiles(vaultDir, entries);
      videos := PathsOf(NewestFirst(found));
    }

    /** export_video: the shared checks, then a copy under the video's own
        name. */
    method ExportVideo(videoPath: string, writable: set<string>, folder: Option<string>) returns (r: Export.ExportResult)
      modifies this`disk
      ensures videoPath !in old(disk) ==> r == Export.ExportFailed(VideoNotFound, false) && disk == old(disk)
      ensures Export.Refusal(videoPath in old(disk), VideoNotFound, folder, old(disk), writable).Some? ==>
        r.ExportFailed? && disk == old(disk)
      ensures Export.Refusal(videoPath in old(disk), VideoNotFound, folder, old(disk), writable).None? ==>
        && r.Exported? && r.originalName == Paths.Basename(videoPath)
        && Export.Placed(old(disk), Paths.Join(folder.value, r.originalName), r.exportPath)
        && disk == old(disk) + {r.exportPath}
    {
      var after;
      r, after := Export.ExportFile(disk, writable, videoPath in disk, VideoNotFound, Paths.Basename(videoPath), folder);
      disk := after;
    }
  }
}
