/** The video vault's core (video_vault_core_optimized.py): the resource
    manager that tracks open readers, players and temporary files and
    cleans them up, the video name test, and thumbnail paths. Readers and
    players are identified by numbers; the filesystem is a set of paths
    passed in and handed back. */
module VideoCore {
  import opened Wrappers
  import opened Strings
  import Paths

  /** periodic_cleanup's thresholds: more than this many of each kind
      triggers a full cleanup. */
  const ReaderLimit := 5
  const PlayerLimit := 3
  const TempFileLimit := 10

  /** The temporary files cleanup_temp_files leaves registered: only
      existing ones whose removal raised. */
  function Kept(temps: set<string>, disk: set<string>, undeletable: set<string>): set<string> {
    temps * disk * undeletable
  }

  /** The temporary files it removes: existing ones that could be removed. */
  function Removed(temps: set<string>, disk: set<string>, undeletable: set<string>): set<string> {
    temps * disk - undeletable
  }

  /** After a cleanup nothing is registered that could have been dealt
      with, and a second cleanup over the same disk removes nothing. */
  lemma CleanupSettles(temps: set<string>, disk: set<string>, undeletable: set<string>)
    ensures Kept(temps, disk, undeletable) <= undeletable
    ensures Removed(Kept(temps, disk, undeletable), disk - Removed(temps, disk, undeletable), undeletable) == {}
    ensures Kept(Kept(temps, disk, undeletable), disk - Removed(temps, disk, undeletable), undeletable)
         == Kept(temps, disk, undeletable)
  {
  }

  /** One more path tried by the cleanup loop. */
  lemma CleanupStep(done: set<string>, p: string, disk: set<string>, undeletable: set<string>)
    requires p !in done
    ensures p in disk - Removed(done, disk, undeletable) <==> p in disk
    ensures p in disk && p !in undeletable ==>
      && disk - Removed(done + {p}, disk, undeletable) == (disk - Removed(done, disk, undeletable)) - {p}
      && |Removed(done + {p}, disk, undeletable)| == |Removed(done, disk, undeletable)| + 1
      && Kept(done + {p}, disk, undeletable) == Kept(done, disk, undeletable)
    ensures p in disk && p in undeletable ==>
      && Removed(done + {p}, disk, undeletable) == Removed(done, disk, undeletable)
      && Kept(done + {p}, disk, undeletable) == Kept(done, disk, undeletable) + {p}
    ensures p !in disk ==>
      && Removed(done + {p}, disk, undeletable) == Removed(done, disk, undeletable)
      && Kept(done + {p}, disk, undeletable) == Kept(done, disk, undeletable)
  {
    if p in disk && p !in undeletable {
      assert Removed(done + {p}, disk, undeletable) == Removed(done, disk, undeletable) + {p};
    }
  }

  /** The removal loop of cleanup_temp_files over a snapshot of the
      registered paths. */
  method TryRemoveAll(temps: set<string>, disk: set<string>, undeletable: set<string>)
    returns (kept: set<string>, cleaned: nat, diskAfter: set<string>)
    ensures kept == Kept(temps, disk, undeletable)
    ensures cleaned == |Removed(temps, disk, undeletable)|
    ensures diskAfter == disk - Removed(temps, disk, undeletable)
  {
    var pending := temps;
    ghost var done: set<string> := {};
    kept, cleaned, diskAfter := {}, 0, disk;
    while pending != {}
      invariant pending + done == temps && pending !! done
      invariant kept == Kept(done, disk, undeletable)
      invariant cleaned == |Removed(done, disk, undeletable)|
      invariant diskAfter == disk - Removed(done, disk, undeletable)
      decreases pending
    {
      var p :| p in pending;
      CleanupStep(done, p, disk, undeletable);
      ShiftOne(pending, done, temps, p);
      if p in diskAfter {
        if p in undeletable {
          // os.remove raised: the path stays registered
          kept := kept + {p};
        } else {
          diskAfter := diskAfter - {p};
          cleaned := cleaned + 1;
        }
      }
      pending := pending - {p};
      done := done + {p};
    }
  }

  class ResourceManager {
    var readers: set<nat>
    var players: set<nat>
    var tempFiles: set<string>
    var cleanupScheduled: bool
    /** How many periodic timers have been started. */
    var timers: nat

    /** At most one periodic timer runs, and only once it is flagged. */
    predicate Valid()
      reads this
    {
      timers == (if cleanupScheduled then 1 else 0)
    }

    constructor ()
      ensures Valid()
      ensures readers == {} && players == {} && tempFiles == {} && !cleanupScheduled
    {
      readers, players, tempFiles := {}, {}, {};
      cleanupScheduled := false;
      timers := 0;
    }

    /** register_temp_file: None and the empty path are ignored. */
    method RegisterTempFile(path: Option<string>)
      modifies this`tempFiles
      ensures tempFiles == if path.Some? && path.value != "" then old(tempFiles) + {path.value} else old(tempFiles)
    {
      if path.Some? && path.value != "" {
        tempFiles := tempFiles + {path.value};
      }
    }

    method RegisterReader(reader: Option<nat>)
      modifies this`readers
      ensures readers == if reader.Some? then old(readers) + {reader.value} else old(readers)
    {
      if reader.Some? {
        readers := readers + {reader.value};
      }
    }

    method RegisterPlayer(player: Option<nat>)
      modifies this`players
      ensures players == if player.Some? then old(players) + {player.value} else old(players)
    {
      if player.Some? {
        players := players + {player.value};
      }
    }

    /** cleanup_temp_files: every registered path is tried; one that exists
        is removed and counted unless removal raises (`undeletable`), in
        which case it stays registered. Paths already gone are dropped. */
    method CleanupTempFiles(disk: set<string>, undeletable: set<string>) returns (cleaned: nat, diskAfter: set<string>)
      modifies this`tempFiles
      ensures tempFiles == Kept(old(tempFiles), disk, undeletable)
      ensures cleaned == |Removed(old(tempFiles), disk, undeletable)|
      ensures diskAfter == disk - Removed(old(tempFiles), disk, undeletable)
    {
      var kept;
      kept, cleaned, diskAfter := TryRemoveAll(tempFiles, disk, undeletable);
      tempFiles := kept;
    }

    /** full_cleanup: readers closed, players stopped, temporary files
        cleaned; the total counts all three. */
    method FullCleanup(disk: set<string>, undeletable: set<string>) returns (total: nat, diskAfter: set<string>)
      modifies this`readers, this`players, this`tempFiles
      ensures readers == {} && players == {}
      ensures tempFiles == Kept(old(tempFiles), disk, undeletable)
      ensures total == |old(readers)| + |old(players)| + |Removed(old(tempFiles), disk, undeletable)|
      ensures diskAfter == disk - Removed(old(tempFiles), disk, undeletable)
    {
      total := |readers| + |players|;
      readers, players := {}, {};
      var cleaned;
      cleaned, diskAfter := CleanupTempFiles(disk, undeletable);
      total := total + cleaned;
    }

    /** schedule_periodic_cleanup: the timer is started the first time only. */
    method SchedulePeriodicCleanup() returns (started: bool)
      requires Valid()
      modifies this`cleanupScheduled, this`timers
      ensures Valid() && cleanupScheduled
      ensures started <==> !old(cleanupScheduled)
      ensures timers == 1
    {
      started := !cleanupScheduled;
      if started {
        cleanupScheduled := true;
        timers := timers + 1;
      }
    }

    /** periodic_cleanup: a full cleanup runs only past a threshold. */
    method PeriodicCleanup(disk: set<string>, undeletable: set<string>) returns (ran: bool, diskAfter: set<string>)
      modifies this`readers, this`players, this`tempFiles
      ensures ran <==> |old(readers)| > ReaderLimit || |old(players)| > PlayerLimit || |old(tempFiles)| > TempFileLimit
      ensures !ran ==> readers == old(readers) && players == old(players) && tempFiles == old(tempFiles) && diskAfter == disk
      ensures ran ==> readers == {} && players == {} && tempFiles == Kept(old(tempFiles), disk, undeletable)
                      && diskAfter == disk - Removed(old(tempFiles), disk, undeletable)
    {
      ran := |readers| > ReaderLimit || |players| > PlayerLimit || |tempFiles| > TempFileLimit;
      diskAfter := disk;
      if ran {
        var total;
        total, diskAfter := FullCleanup(disk, undeletable);
      }
    }
  }

  /** is_valid_video's extension list. */
  const VideoExtensions: seq<string> := [".mp4", ".avi", ".mov", ".mkv", ".wmv", ".flv", ".webm", ".3gp", ".ogg", ".ogv"]

  /** is_valid_video: the lower-cased path ends with a listed extension. */
  predicate IsValidVideo(path: string) {
    exists k :: 0 <= k < |VideoExtensions| && EndsWith(Lower(path), VideoExtensions[k])
  }

  /** A path whose extension, as splitext sees it, is listed is a video. */
  lemma ListedExtIsVideo(path: string)
    requires Paths.Ext(Lower(path)) in VideoExtensions
    ensures IsValidVideo(path)
  {
    var lower := Lower(path);
    var k :| 0 <= k < |VideoExtensions| && VideoExtensions[k] == Paths.Ext(lower);
    assert Paths.Root(lower) + Paths.Ext(lower) == lower;
    assert lower[|lower| - |Paths.Ext(lower)|..] == Paths.Ext(lower);
  }

  /** The test is by suffix, not by extension: a file named only ".mp4"
      counts as a video although splitext gives it no extension. */
  lemma SuffixNotExtension()
    ensures IsValidVideo(".mp4") && Paths.Ext(".mp4") == ""
  {
    assert Lower(".mp4") == ".mp4";
    assert EndsWith(Lower(".mp4"), VideoExtensions[0]);
  }

  /** Where a video's thumbnail lives: thumbnails/<stem>_thumb.jpg. */
  function ThumbnailPath(vaultDir: string, videoPath: string): string {
    Paths.Join(Paths.Join(vaultDir, "thumbnails"), Paths.Root(Paths.Basename(videoPath)) + "_thumb.jpg")
  }

  /** The thumbnail's file name is the video's stem with "_thumb.jpg". */
  lemma ThumbnailName(vaultDir: string, videoPath: string)
    ensures Paths.Basename(ThumbnailPath(vaultDir, videoPath)) == Paths.Root(Paths.Basename(videoPath)) + "_thumb.jpg"
  {
    var stem := Paths.Root(Paths.Basename(videoPath));
    Paths.SplitExtOfName(Paths.Basename(videoPath));
    ThumbFileNoSlash(stem);
    Paths.BasenameOfJoin(Paths.Join(vaultDir, "thumbnails"), stem + "_thumb.jpg");
  }

  lemma ThumbFileNoSlash(stem: string)
    requires '/' !in stem
    ensures stem + "_thumb.jpg" != [] && '/' !in stem + "_thumb.jpg"
  {
    var t := "_thumb.jpg";
    assert forall k :: 0 <= k < |t| ==> t[k] != '/';
    forall k | 0 <= k < |stem + t| ensures (stem + t)[k] != '/' {
      if k < |stem| {
        assert (stem + t)[k] == stem[k];
      } else {
        assert (stem + t)[k] == t[k - |stem|];
      }
    }
  }

  /** get_thumbnail_path: only an existing thumbnail is returned. */
  function GetThumbnailPath(vaultDir: string, videoPath: string, disk: set<string>): (r: Option<string>)
    ensures r.Some? <==> ThumbnailPath(vaultDir, videoPath) in disk
    ensures r.Some? ==> r.value == ThumbnailPath(vaultDir, videoPath)
  {
    var thumb := ThumbnailPath(vaultDir, videoPath);
    if thumb in disk then Some(thumb) else None
  }

  /** generate_thumbnail_safe: an existing thumbnail is returned as is;
      otherwise a frame or a placeholder is written (`written` says whether
      the write succeeded, failures are swallowed) and the path returned. */
  method GenerateThumbnailSafe(vaultDir: string, videoPath: string, disk: set<string>, written: bool)
    returns (r: Option<string>, diskAfter: set<string>)
    ensures r == Some(ThumbnailPath(vaultDir, videoPath))
    ensures ThumbnailPath(vaultDir, videoPath) in disk ==> diskAfter == disk
    ensures ThumbnailPath(vaultDir, videoPath) !in disk ==>
      diskAfter == if written then disk + {ThumbnailPath(vaultDir, videoPath)} else disk
  {
    var thumb := ThumbnailPath(vaultDir, videoPath);
    if thumb in disk {
      return Some(thumb), disk;
    }
    diskAfter := if written then disk + {thumb} else disk;
    r := Some(thumb);
  }

  /** Once generated successfully, the thumbnail is found. */
  lemma GeneratedThumbnailFound(vaultDir: string, videoPath: string, disk: set<string>)
    ensures GetThumbnailPath(vaultDir, videoPath, disk + {ThumbnailPath(vaultDir, videoPath)})
         == Some(ThumbnailPath(vaultDir, videoPath))
  {
  }
}
