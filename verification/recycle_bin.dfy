/** The recycle bin: files moved out of the vault are kept under
    <recycle dir>/<type>/deleted_<stamp>_<name> and described by a metadata
    map keyed by that file name; they are restored, deleted for good, or
    purged once older than their type's retention period. */
module RecycleBin {
  import opened Wrappers
  import opened Strings
  import Paths
  import Naming
  import Sorting

  const SecondsPerDay: int := 86400

  /** One entry of the file type table. */
  datatype TypeConfig = TypeConfig(extensions: seq<string>, retentionDays: int, icon: string, displayName: string)

  /** The file type table: a dict, i.e. a map plus the order its keys were inserted in. */
  datatype TypeTable = TypeTable(order: seq<string>, types: map<string, TypeConfig>) {
    ghost predicate Valid() {
      && (forall i, j :: 0 <= i < j < |order| ==> order[i] != order[j])
      && (forall i :: 0 <= i < |order| ==> order[i] in types)
      && (forall t :: t in types ==> t in order)
      && "other" in types
    }

    /** add_new_file_type: set (or replace) one entry; a new name goes last. */
    function WithFileType(name: string, config: TypeConfig): (r: TypeTable)
      requires Valid()
      ensures r.Valid()
      ensures r.types == types[name := config]
      ensures name in types ==> r.order == order
      ensures name !in types ==> r.order == order + [name]
    {
      if name in types then TypeTable(order, types[name := config])
      else TypeTable(order + [name], types[name := config])
    }
  }

  /** FILE_TYPE_CONFIG as shipped. */
  const DefaultTypes: TypeTable := TypeTable(
    ["photos", "videos", "notes", "audio", "apps", "documents", "other"],
    map[
      "photos" := TypeConfig([".jpg", ".jpeg", ".png", ".gif", ".bmp", ".webp"], 30, "📷", "Photos"),
      "videos" := TypeConfig([".mp4", ".avi", ".mov", ".mkv", ".wmv", ".flv", ".webm", ".3gp", ".ogg", ".ogv"], 7, "🎬", "Videos"),
      "notes" := TypeConfig([".txt", ".md", ".note", ".json"], 60, "📝", "Notes"),
      "audio" := TypeConfig([".mp3", ".wav", ".flac", ".ogg", ".m4a", ".aac"], 14, "🎵", "Audio"),
      "apps" := TypeConfig([".apk", ".exe", ".dmg", ".deb"], 90, "📱", "Apps"),
      "documents" := TypeConfig([".pdf", ".doc", ".docx", ".xls", ".xlsx", ".ppt", ".pptx"], 45, "📄", "Documents"),
      "other" := TypeConfig([], 30, "📁", "Other Files")
    ])

  lemma DefaultTypesValid()
    ensures DefaultTypes.Valid()
  {
  }

  /** t is in the order and no type before it lists ext. */
  ghost predicate ListedFirstAt(order: seq<string>, types: map<string, TypeConfig>, ext: string, t: string)
    requires forall u :: u in order ==> u in types
  {
    exists i :: 0 <= i < |order| && order[i] == t && forall j :: 0 <= j < i ==> ext !in types[order[j]].extensions
  }

  /** The first type, in table order, whose extension list holds ext. */
  function FirstTypeWith(order: seq<string>, types: map<string, TypeConfig>, ext: string): (r: Option<string>)
    requires forall t :: t in order ==> t in types
    ensures r.Some? ==> r.value in order && ext in types[r.value].extensions
    ensures r.Some? ==> ListedFirstAt(order, types, ext, r.value)
    ensures r.None? ==> forall t :: t in order ==> ext !in types[t].extensions
  {
    if order == [] then None
    else if ext in types[order[0]].extensions then Some(order[0])
    else
      var r := FirstTypeWith(order[1..], types, ext);
      if r.Some? then
        var i :| 0 <= i < |order[1..]| && order[1..][i] == r.value
                 && forall j :: 0 <= j < i ==> ext !in types[order[1..][j]].extensions;
        assert order[i + 1] == r.value;
        assert forall j :: 0 <= j < i + 1 ==> ext !in types[order[j]].extensions;
        r
      else r
  }

  /** detect_file_type: a missing path, or an extension no type lists, is 'other'. */
  function DetectFileType(table: TypeTable, disk: set<string>, path: string): (t: string)
    requires forall u :: u in table.order ==> u in table.types
    requires "other" in table.types
    ensures t in table.types
    ensures path !in disk ==> t == "other"
    ensures t != "other" ==> Lower(Paths.Ext(path)) in table.types[t].extensions
  {
    if path !in disk then "other"
    else FirstTypeWith(table.order, table.types, Lower(Paths.Ext(path))).GetOr("other")
  }

  /** '.ogg' is listed by both videos and audio; videos comes first and wins. */
  lemma OggIsVideo(disk: set<string>, path: string)
    requires path in disk && Lower(Paths.Ext(path)) == ".ogg"
    ensures DetectFileType(DefaultTypes, disk, path) == "videos"
  {
    DefaultTypesValid();
    OggSecondListed();
    SecondListedWins(DefaultTypes, disk, path);
  }

  /** When the first type does not list a path's extension and the second
      does, the second is the path's type. */
  lemma SecondListedWins(table: TypeTable, disk: set<string>, path: string)
    requires table.Valid() && path in disk && |table.order| >= 2
    requires Lower(Paths.Ext(path)) !in table.types[table.order[0]].extensions
    requires Lower(Paths.Ext(path)) in table.types[table.order[1]].extensions
    ensures DetectFileType(table, disk, path) == table.order[1]
  {
    FirstTypeAt(table.order, table.types, Lower(Paths.Ext(path)), 1);
  }

  /** Of the default types, photos (first) does not list '.ogg' and videos (second) does. */
  lemma OggSecondListed()
    ensures DefaultTypes.order[0] == "photos" && DefaultTypes.order[1] == "videos"
    ensures ".ogg" !in DefaultTypes.types["photos"].extensions
    ensures ".ogg" in DefaultTypes.types["videos"].extensions
  {
  }

  /** The type found is the first one, in order, that lists ext. */
  lemma {:induction false} FirstTypeAt(order: seq<string>, types: map<string, TypeConfig>, ext: string, i: nat)
    requires forall t :: t in order ==> t in types
    requires i < |order| && ext in types[order[i]].extensions
    requires forall j :: 0 <= j < i ==> ext !in types[order[j]].extensions
    ensures FirstTypeWith(order, types, ext) == Some(order[i])
  {
    if i > 0 {
      assert ext !in types[order[0]].extensions;
      assert forall j :: 0 <= j < i - 1 ==> order[1..][j] == order[j + 1];
      FirstTypeAt(order[1..], types, ext, i - 1);
    }
  }

  /** generate_recycled_filename: <recycle dir>/<type>/deleted_<stamp>_<basename>. */
  function RecycledPath(recycleDir: string, path: string, fileType: string, stamp: string): string {
    Paths.Join(Paths.Join(recycleDir, fileType), RecycledName(path, stamp))
  }

  /** The file name part: the stem and the extension of the basename, rejoined. */
  function RecycledName(path: string, stamp: string): string {
    var parts := Paths.SplitExt(Paths.Basename(path));
    "deleted_" + stamp + "_" + parts.0 + parts.1
  }

  lemma RecycledNameIs(path: string, stamp: string)
    requires '/' !in stamp
    ensures RecycledName(path, stamp) == "deleted_" + stamp + "_" + Paths.Basename(path)
    ensures '/' !in RecycledName(path, stamp)
  {
    var parts := Paths.SplitExt(Paths.Basename(path));
    assert parts.0 + parts.1 == Paths.Basename(path);
  }

  /** The metadata key is the recycled file's name: "deleted_" + stamp + "_" + the original basename. */
  lemma RecycledIdIsName(recycleDir: string, path: string, fileType: string, stamp: string)
    requires '/' !in stamp
    ensures Paths.Basename(RecycledPath(recycleDir, path, fileType, stamp))
            == "deleted_" + stamp + "_" + Paths.Basename(path)
  {
    RecycledNameIs(path, stamp);
    Paths.BasenameOfJoin(Paths.Join(recycleDir, fileType), RecycledName(path, stamp));
  }

  /** What the metadata records about one recycled file (deleted_at in seconds). */
  datatype RecycledInfo = RecycledInfo(
    originalPath: string,
    originalLocation: string,
    recycledPath: string,
    fileType: string,
    deletedAt: int,
    size: nat,
    extra: map<string, string>)

  /** The record move_to_recycle stores for a file that exists. */
  function RecycledEntry(table: TypeTable, disk: map<string, nat>, recycleDir: string, filePath: string,
                         originalLocation: string, extra: map<string, string>, stamp: string, now: int): (info: RecycledInfo)
    requires table.Valid() && filePath in disk
    ensures info.fileType == DetectFileType(table, disk.Keys, filePath) && info.fileType in table.types
    ensures info.recycledPath == RecycledPath(recycleDir, filePath, info.fileType, stamp)
    ensures info.originalPath == filePath && info.deletedAt == now && info.size == disk[filePath]
    ensures info.originalLocation == if originalLocation != "" then originalLocation else Paths.Dirname(filePath)
  {
    var fileType := DetectFileType(table, disk.Keys, filePath);
    RecycledInfo(filePath,
      if originalLocation != "" then originalLocation else Paths.Dirname(filePath),
      RecycledPath(recycleDir, filePath, fileType, stamp), fileType, now, disk[filePath], extra)
  }

  /** Older than the type's retention period, strictly. */
  predicate IsExpired(table: TypeTable, info: RecycledInfo, now: int)
    requires info.fileType in table.types
  {
    now - info.deletedAt > table.types[info.fileType].retentionDays * SecondsPerDay
  }

  /** get_days_remaining: whole days (floored) until expiry, never negative. */
  function DaysRemaining(table: TypeTable, info: RecycledInfo, now: int): (d: nat)
    requires info.fileType in table.types
  {
    var expiry := info.deletedAt + table.types[info.fileType].retentionDays * SecondsPerDay;
    var days := (expiry - now) / SecondsPerDay;
    if days < 0 then 0 else days
  }

  /** An expired entry shows zero days; an entry with days left is not expired;
      while the clock has not gone back past the deletion, no more than the
      retention period is left. */
  lemma DaysRemainingMeaning(table: TypeTable, info: RecycledInfo, now: int)
    requires info.fileType in table.types
    ensures IsExpired(table, info, now) ==> DaysRemaining(table, info, now) == 0
    ensures DaysRemaining(table, info, now) > 0 ==> !IsExpired(table, info, now)
    ensures now >= info.deletedAt ==>
              DaysRemaining(table, info, now) <= if table.types[info.fileType].retentionDays < 0 then 0
                                                 else table.types[info.fileType].retentionDays
  {
    var r := table.types[info.fileType].retentionDays;
    var left := info.deletedAt + r * SecondsPerDay - now;
    if IsExpired(table, info, now) {
      assert left < 0;
      assert left / SecondsPerDay < 0;
    }
    if now >= info.deletedAt {
      assert left <= r * SecondsPerDay;
      DivMonotone(left, r * SecondsPerDay);
      assert (r * SecondsPerDay) / SecondsPerDay == r;
    }
  }

  lemma DivMonotone(a: int, b: int)
    requires a <= b
    ensures a / SecondsPerDay <= b / SecondsPerDay
  {
  }

  ghost function ExpiredIds(table: TypeTable, metadata: map<string, RecycledInfo>, now: int): set<string>
    requires forall id :: id in metadata ==> metadata[id].fileType in table.types
  {
    set id | id in metadata && IsExpired(table, metadata[id], now)
  }

  /** The loop of get_recycled_files: one line per selected entry, in no particular order. */
  method CollectViews(types: TypeTable, entries: map<string, RecycledInfo>, fileType: Option<string>, now: int)
    returns (collected: seq<RecycledView>)
    requires forall id :: id in entries ==> entries[id].fileType in types.types
    ensures forall v :: v in collected ==> IsViewOf(v, types, entries, fileType, now)
    ensures forall id :: id in entries && Selected(entries[id], fileType) ==> exists v :: v in collected && v.id == id
    ensures DistinctIds(collected)
  {
    collected := [];
    var unseen := entries.Keys;
    while unseen != {}
      invariant unseen <= entries.Keys
      invariant forall v :: v in collected ==> IsViewOf(v, types, entries, fileType, now) && v.id !in unseen
      invariant forall id :: id in entries && id !in unseen && Selected(entries[id], fileType) ==>
        exists v :: v in collected && v.id == id
      invariant DistinctIds(collected)
    {
      var id :| id in unseen;
      var info := entries[id];
      if Selected(info, fileType) {
        var v := ViewOf(types, id, info, now);
        DistinctIdsAppend(collected, v);
        collected := collected + [v];
        assert v in collected;
      }
      unseen := unseen - {id};
    }
  }

  /** One line of get_recycled_files. */
  datatype RecycledView = RecycledView(id: string, info: RecycledInfo, displayName: string, daysRemaining: nat)

  function DeletedAtKey(v: RecycledView): int { v.info.deletedAt }

  predicate Selected(info: RecycledInfo, fileType: Option<string>) {
    fileType.None? || info.fileType == fileType.value
  }

  /** v is the listing line for its id: same info, the right type, the
      original basename as display name and the days left. */
  ghost predicate IsViewOf(v: RecycledView, table: TypeTable, metadata: map<string, RecycledInfo>,
                           fileType: Option<string>, now: int)
    requires forall id :: id in metadata ==> metadata[id].fileType in table.types
  {
    && v.id in metadata && v.info == metadata[v.id]
    && Selected(v.info, fileType)
    && v.displayName == Paths.Basename(v.info.originalPath)
    && v.daysRemaining == DaysRemaining(table, v.info, now)
  }

  /** The listing line get_recycled_files builds for one entry. */
  function ViewOf(table: TypeTable, id: string, info: RecycledInfo, now: int): (v: RecycledView)
    requires info.fileType in table.types
    ensures v.id == id && v.info == info && v.displayName == Paths.Basename(info.originalPath)
    ensures v.daysRemaining == DaysRemaining(table, info, now)
  {
    RecycledView(id, info, Paths.Basename(info.originalPath), DaysRemaining(table, info, now))
  }

  /** get_recycle_bin_stats. */
  /** One type's line of the statistics; sizes are kept in bytes. */
  datatype TypeStats = TypeStats(count: nat, bytes: nat, icon: string, displayName: string)
  datatype BinStats = BinStats(totalFiles: nat, totalBytes: nat, byType: map<string, TypeStats>)

  /** What is added up over the entries: one per entry of a type, the bytes of a type, or all bytes. */
  datatype Measure = FilesOf(t: string) | BytesOf(t: string) | AllBytes

  function Weight(w: Measure, info: RecycledInfo): nat {
    match w
    case FilesOf(t) => if info.fileType == t then 1 else 0
    case BytesOf(t) => if info.fileType == t then info.size else 0
    case AllBytes => info.size
  }

  ghost function Pick(ids: set<string>): (id: string)
    requires ids != {}
    ensures id in ids
  {
    var id :| id in ids; id
  }

  /** The measure summed over the given entries. */
  ghost function Total(m: map<string, RecycledInfo>, ids: set<string>, w: Measure): nat
    requires ids <= m.Keys
    decreases ids
  {
    if ids == {} then 0 else var id := Pick(ids); Weight(w, m[id]) + Total(m, ids - {id}, w)
  }

  /** Any entry can be taken out of the sum first. */
  lemma {:induction false} TotalRemove(m: map<string, RecycledInfo>, ids: set<string>, w: Measure, x: string)
    requires ids <= m.Keys && x in ids
    ensures Total(m, ids, w) == Weight(w, m[x]) + Total(m, ids - {x}, w)
    decreases ids
  {
    var y := Pick(ids);
    if y != x {
      TotalRemove(m, ids - {y}, w, x);
      TotalRemove(m, ids - {x}, w, y);
      assert ids - {y} - {x} == ids - {x} - {y};
    }
  }

  /** The number of entries of type t. */
  ghost function TypeCount(m: map<string, RecycledInfo>, t: string): nat {
    Total(m, m.Keys, FilesOf(t))
  }

  /** The per-type count is the number of entries recorded with that type. */
  lemma TypeCountIsCard(m: map<string, RecycledInfo>, t: string)
    ensures TypeCount(m, t) == |set id | id in m && m[id].fileType == t|
  {
    FilesOfCard(m, m.Keys, t);
    assert OfType(m, m.Keys, t) == set id | id in m && m[id].fileType == t;
  }

  /** The given entries recorded with type t. */
  ghost function OfType(m: map<string, RecycledInfo>, ids: set<string>, t: string): set<string>
    requires ids <= m.Keys
  {
    set id | id in ids && m[id].fileType == t
  }

  lemma OfTypeRemove(m: map<string, RecycledInfo>, ids: set<string>, t: string, x: string)
    requires ids <= m.Keys && x in ids
    ensures x !in OfType(m, ids - {x}, t)
    ensures OfType(m, ids, t) == OfType(m, ids - {x}, t) + (if m[x].fileType == t then {x} else {})
  {
  }

  lemma {:induction false} FilesOfCard(m: map<string, RecycledInfo>, ids: set<string>, t: string)
    requires ids <= m.Keys
    ensures Total(m, ids, FilesOf(t)) == |OfType(m, ids, t)|
    decreases ids
  {
    if ids != {} {
      var x := Pick(ids);
      FilesOfCard(m, ids - {x}, t);
      OfTypeRemove(m, ids, t, x);
    } else {
      assert OfType(m, ids, t) == {};
    }
  }

  /** One type's tallies over the entries already seen: what is still unseen completes each sum. */
  ghost predicate TalliedType(m: map<string, RecycledInfo>, unseen: set<string>,
                              counts: map<string, nat>, sizes: map<string, nat>, t: string)
    requires unseen <= m.Keys
  {
    t in counts && t in sizes ==>
      && counts[t] + Total(m, unseen, FilesOf(t)) == Total(m, m.Keys, FilesOf(t))
      && sizes[t] + Total(m, unseen, BytesOf(t)) == Total(m, m.Keys, BytesOf(t))
  }

  /** The tallies of the statistics loop. */
  ghost predicate Tallied(m: map<string, RecycledInfo>, unseen: set<string>, bytes: nat,
                          counts: map<string, nat>, sizes: map<string, nat>)
    requires unseen <= m.Keys
  {
    && bytes + Total(m, unseen, AllBytes) == Total(m, m.Keys, AllBytes)
    && forall t :: TalliedType(m, unseen, counts, sizes, t)
  }

  lemma TalliedStart(m: map<string, RecycledInfo>, counts: map<string, nat>, sizes: map<string, nat>)
    requires forall t :: t in counts ==> counts[t] == 0
    requires forall t :: t in sizes ==> sizes[t] == 0
    ensures Tallied(m, m.Keys, 0, counts, sizes)
  {
    forall t ensures TalliedType(m, m.Keys, counts, sizes, t) {
    }
  }

  lemma TalliedStep(m: map<string, RecycledInfo>, unseen: set<string>, bytes: nat,
                    counts: map<string, nat>, sizes: map<string, nat>, id: string,
                    bytes': nat, counts': map<string, nat>, sizes': map<string, nat>)
    requires unseen <= m.Keys && id in unseen
    requires m[id].fileType in counts && m[id].fileType in sizes
    requires Tallied(m, unseen, bytes, counts, sizes)
    requires bytes' == bytes + m[id].size
    requires counts' == counts[m[id].fileType := counts[m[id].fileType] + 1]
    requires sizes' == sizes[m[id].fileType := sizes[m[id].fileType] + m[id].size]
    ensures Tallied(m, unseen - {id}, bytes', counts', sizes')
  {
    TotalRemove(m, unseen, AllBytes, id);
    forall t ensures TalliedType(m, unseen - {id}, counts', sizes', t) {
      assert TalliedType(m, unseen, counts, sizes, t);
      TotalRemove(m, unseen, FilesOf(t), id);
      TotalRemove(m, unseen, BytesOf(t), id);
    }
  }

  /** With nothing unseen, the tallies are the sums over all entries. */
  lemma TalliedEnd(m: map<string, RecycledInfo>, bytes: nat, counts: map<string, nat>, sizes: map<string, nat>)
    requires Tallied(m, {}, bytes, counts, sizes)
    ensures bytes == Total(m, m.Keys, AllBytes)
    ensures forall t :: t in counts && t in sizes ==>
      counts[t] == TypeCount(m, t) && sizes[t] == Total(m, m.Keys, BytesOf(t))
  {
    forall t | t in counts && t in sizes
      ensures counts[t] == TypeCount(m, t) && sizes[t] == Total(m, m.Keys, BytesOf(t))
    {
      assert TalliedType(m, {}, counts, sizes, t);
    }
  }

  /** The count line of each type. */
  function Counts(byType: map<string, TypeStats>): (counts: map<string, nat>)
    ensures counts.Keys == byType.Keys
    ensures forall t :: t in byType ==> counts[t] == byType[t].count
  {
    map t | t in byType :: byType[t].count
  }

  /** Sum of the counts of the listed types. */
  function SumCounts(order: seq<string>, counts: map<string, nat>): nat
    requires forall t :: t in order ==> t in counts
  {
    if order == [] then 0 else counts[order[0]] + SumCounts(order[1..], counts)
  }

  class RecycleBinCore {
    const recycleDir: string
    /** FILE_TYPE_CONFIG */
    var table: TypeTable
    /** recycled id -> what was recycled */
    var metadata: map<string, RecycledInfo>
    /** The files the bin can see: path -> size in bytes. */
    var disk: map<string, nat>

    ghost predicate Valid()
      reads this
    {
      && table.Valid()
      && forall id :: id in metadata ==> metadata[id].fileType in table.types
    }

    constructor (recycleDir: string, disk: map<string, nat>)
      ensures Valid()
      ensures this.recycleDir == recycleDir && this.disk == disk
      ensures table == DefaultTypes && metadata == map[]
    {
      DefaultTypesValid();
      this.recycleDir, this.disk, table, metadata := recycleDir, disk, DefaultTypes, map[];
    }

    /** move_to_recycle; originalLocation "" stands for None. */
    method MoveToRecycle(filePath: string, originalLocation: string, extra: map<string, string>, stamp: string, now: int)
      returns (r: Result<RecycledInfo>)
      requires Valid()
      modifies this`metadata, this`disk
      ensures Valid()
      ensures filePath !in old(disk) ==> r == Err("File not found") && metadata == old(metadata) && disk == old(disk)
      ensures filePath in old(disk) ==> r.Ok?
      ensures r.Ok? ==>
        && filePath in old(disk)
        && r.value == RecycledEntry(old(table), old(disk), recycleDir, filePath, originalLocation, extra, stamp, now)
        && metadata == old(metadata)[Paths.Basename(r.value.recycledPath) := r.value]
        && disk == (old(disk) - {filePath})[r.value.recycledPath := old(disk)[filePath]]
    {
      if filePath !in disk {
        return Err("File not found");
      }
      var info := RecycledEntry(table, disk, recycleDir, filePath, originalLocation, extra, stamp, now);
      var newDisk := (disk - {filePath})[info.recycledPath := disk[filePath]];
      Record(Paths.Basename(info.recycledPath), info, newDisk);
      r := Ok(info);
    }

    /** The bookkeeping step of move_to_recycle: the file is at its new
        path and the entry is stored under its id. */
    method Record(id: string, info: RecycledInfo, newDisk: map<string, nat>)
      requires Valid() && info.fileType in table.types
      modifies this`metadata, this`disk
      ensures Valid()
      ensures metadata == old(metadata)[id := info] && disk == newDisk
    {
      TypesKnownAfterInsert(table, metadata, id, info, metadata[id := info]);
      metadata, disk := metadata[id := info], newDisk;
    }

    /** restore_from_recycle; restoreLocation "" stands for None. Answers the restored path. */
    method RestoreFromRecycle(id: string, restoreLocation: string) returns (r: Result<string>)
      requires Valid()
      modifies this`metadata, this`disk
      ensures Valid()
      ensures id !in old(metadata) ==>
        r == Err("File not found in recycle bin") && metadata == old(metadata) && disk == old(disk)
      ensures id in old(metadata) && old(metadata)[id].recycledPath !in old(disk) ==>
        r == Err("Recycled file missing from disk") && metadata == old(metadata) && disk == old(disk)
      ensures id in old(metadata) && old(metadata)[id].recycledPath in old(disk) ==> r.Ok?
      ensures r.Ok? ==>
        var info := old(metadata)[id];
        var target := if restoreLocation != "" then restoreLocation
                      else Paths.Join(info.originalLocation, Paths.Basename(info.originalPath));
        && id in old(metadata)
        && r.value !in old(disk)
        && (target !in old(disk) ==> r.value == target)
        && metadata == old(metadata) - {id}
        && disk == (old(disk) - {info.recycledPath})[r.value := old(disk)[info.recycledPath]]
    {
      if id !in metadata {
        return Err("File not found in recycle bin");
      }
      var info := metadata[id];
      if info.recycledPath !in disk {
        return Err("Recycled file missing from disk");
      }
      var target := if restoreLocation != "" then restoreLocation
                    else Paths.Join(info.originalLocation, Paths.Basename(info.originalPath));
      var restored := ResolveRestoreConflicts(disk.Keys, target);
      Unrecord(id, info.recycledPath, restored);
      return Ok(restored);
    }

    /** The bookkeeping step of restore_from_recycle: the file moves from
        the bin to its restored path and the entry is dropped. */
    method Unrecord(id: string, from: string, to: string)
      requires Valid() && from in disk
      modifies this`metadata, this`disk
      ensures Valid()
      ensures metadata == old(metadata) - {id} && disk == (old(disk) - {from})[to := old(disk)[from]]
    {
      metadata, disk := metadata - {id}, (disk - {from})[to := disk[from]];
    }

    /** delete_permanently: the entry goes even if its file is already gone. */
    method DeletePermanently(id: string) returns (r: Result<()>)
      requires Valid()
      modifies this`metadata, this`disk
      ensures Valid()
      ensures id !in old(metadata) ==>
        r == Err("File not found in recycle bin") && metadata == old(metadata) && disk == old(disk)
      ensures id in old(metadata) ==>
        r == Ok(()) && metadata == old(metadata) - {id} && disk == old(disk) - {old(metadata)[id].recycledPath}
    {
      if id !in metadata {
        return Err("File not found in recycle bin");
      }
      disk := disk - {metadata[id].recycledPath};
      metadata := metadata - {id};
      return Ok(());
    }

    /** cleanup_expired_files: collect the expired ids, then delete each. */
    method CleanupExpiredFiles(now: int) returns (count: nat)
      requires Valid()
      modifies this`metadata, this`disk
      ensures Valid()
      ensures metadata == old(metadata) - ExpiredIds(table, old(metadata), now)
      ensures count == |ExpiredIds(table, old(metadata), now)|
      ensures forall id :: id in metadata ==> !IsExpired(table, metadata[id], now)
      ensures disk == old(disk) - RecycledPaths(old(metadata), ExpiredIds(table, old(metadata), now))
    {
      var expired: set<string> := {};
      var unseen := metadata.Keys;
      while unseen != {}
        invariant unseen <= metadata.Keys
        invariant expired == set id | id in metadata.Keys - unseen && IsExpired(table, metadata[id], now)
      {
        var id :| id in unseen;
        if IsExpired(table, metadata[id], now) {
          expired := expired + {id};
        }
        unseen := unseen - {id};
      }
      assert expired == ExpiredIds(table, metadata, now);
      DeleteAll(expired);
      count := |expired|;
    }

    /** The deletion loop shared by cleanup_expired_files and empty_recycle_bin. */
    method DeleteAll(ids: set<string>)
      requires Valid() && ids <= metadata.Keys
      modifies this`metadata, this`disk
      ensures Valid()
      ensures metadata == old(metadata) - ids
      ensures disk == old(disk) - RecycledPaths(old(metadata), ids)
    {
      var pending := ids;
      ghost var done: set<string> := {};
      ghost var entries, files := metadata, disk;
      while pending != {}
        invariant Valid()
        invariant pending + done == ids && pending !! done
        invariant metadata == entries - done
        invariant disk == files - RecycledPaths(entries, done)
      {
        var id :| id in pending;
        ShiftOne(pending, done, ids, id);
        var _ := DeletePermanently(id);
        RecycledPathsAdd(entries, done, id);
        MapMinusStep(entries, done, id);
        MapMinusStep(files, RecycledPaths(entries, done), entries[id].recycledPath);
        done := done + {id};
        pending := pending - {id};
      }
    }

    /** empty_recycle_bin; fileType None empties everything. */
    method EmptyRecycleBin(fileType: Option<string>) returns (deletedCount: nat)
      requires Valid()
      modifies this`metadata, this`disk
      ensures Valid()
      ensures metadata.Keys <= old(metadata).Keys
      ensures forall id :: id in old(metadata) ==>
        (id in metadata <==> !(fileType.None? || old(metadata)[id].fileType == fileType.value))
      ensures forall id :: id in metadata ==> metadata[id] == old(metadata)[id]
      ensures deletedCount == |old(metadata)| - |metadata|
      ensures fileType.None? ==> metadata == map[]
      ensures disk == old(disk) - RecycledPaths(old(metadata), set id | id in old(metadata) &&
        (fileType.None? || old(metadata)[id].fileType == fileType.value))
    {
      var toDelete := set id | id in metadata && (fileType.None? || metadata[id].fileType == fileType.value);
      DeleteAll(toDelete);
      assert metadata.Keys == old(metadata).Keys - toDelete;
      deletedCount := |toDelete|;
    }

    /** get_recycled_files: the entries of one type (or all), newest deletion first. */
    method GetRecycledFiles(fileType: Option<string>, now: int) returns (files: seq<RecycledView>)
      requires Valid()
      ensures Sorting.SortedDescBy(files, DeletedAtKey)
      ensures forall v :: v in files ==> IsViewOf(v, table, metadata, fileType, now)
      ensures forall id :: id in metadata && Selected(metadata[id], fileType) ==> exists v :: v in files && v.id == id
      ensures DistinctIds(files)
    {
      var collected := CollectViews(table, metadata, fileType, now);
      files := Sorting.SortDescBy(collected, DeletedAtKey);
      SameElements(collected, files);
      DistinctIdsKept(collected, files);
    }

    /** get_recycle_bin_stats: a line per known type with its count and bytes, and the totals. */
    method GetRecycleBinStats() returns (stats: BinStats)
      requires Valid()
      ensures stats.totalFiles == |metadata|
      ensures stats.totalBytes == Total(metadata, metadata.Keys, AllBytes)
      ensures stats.byType.Keys == table.types.Keys
      ensures forall t :: t in stats.byType ==>
        stats.byType[t] == TypeStats(TypeCount(metadata, t), Total(metadata, metadata.Keys, BytesOf(t)),
                                     table.types[t].icon, table.types[t].displayName)
      ensures SumCounts(table.order, Counts(stats.byType)) == stats.totalFiles
    {
      stats := Statistics(table, metadata);
    }

    /** add_new_file_type */
    method AddNewFileType(name: string, extensions: seq<string>, retentionDays: int, icon: string, displayName: string)
      requires Valid()
      modifies this
      ensures Valid() && metadata == old(metadata) && disk == old(disk)
      ensures table == old(table).WithFileType(name, TypeConfig(extensions, retentionDays, icon, displayName))
    {
      table := table.WithFileType(name, TypeConfig(extensions, retentionDays, icon, displayName));
    }
  }

  /** The per-type counts of the given entries, summed over the listed types. */
  ghost function TypeCountSum(order: seq<string>, m: map<string, RecycledInfo>, ids: set<string>): nat
    requires ids <= m.Keys
  {
    if order == [] then 0 else Total(m, ids, FilesOf(order[0])) + TypeCountSum(order[1..], m, ids)
  }

  /** How many of the listed types one entry counts for. */
  function Hits(order: seq<string>, info: RecycledInfo): nat {
    if order == [] then 0 else Weight(FilesOf(order[0]), info) + Hits(order[1..], info)
  }

  lemma {:induction false} HitsOnce(order: seq<string>, info: RecycledInfo)
    requires forall i, j :: 0 <= i < j < |order| ==> order[i] != order[j]
    requires info.fileType in order
    ensures Hits(order, info) == 1
  {
    if order[0] == info.fileType {
      assert info.fileType !in order[1..];
      HitsNone(order[1..], info);
    } else {
      HitsOnce(order[1..], info);
    }
  }

  lemma {:induction false} HitsNone(order: seq<string>, info: RecycledInfo)
    requires info.fileType !in order
    ensures Hits(order, info) == 0
  {
    if order != [] {
      HitsNone(order[1..], info);
    }
  }

  lemma {:induction false} TypeCountSumRemove(order: seq<string>, m: map<string, RecycledInfo>, ids: set<string>, x: string)
    requires ids <= m.Keys && x in ids
    ensures TypeCountSum(order, m, ids) == Hits(order, m[x]) + TypeCountSum(order, m, ids - {x})
  {
    if order != [] {
      TotalRemove(m, ids, FilesOf(order[0]), x);
      TypeCountSumRemove(order[1..], m, ids, x);
    }
  }

  lemma {:induction false} TypeCountSumEmpty(order: seq<string>, m: map<string, RecycledInfo>)
    ensures TypeCountSum(order, m, {}) == 0
  {
    if order != [] {
      TypeCountSumEmpty(order[1..], m);
    }
  }

  /** Over distinct types that cover every entry, each entry is counted exactly once. */
  lemma {:induction false} TypeCountSumAll(order: seq<string>, m: map<string, RecycledInfo>, ids: set<string>)
    requires ids <= m.Keys
    requires forall i, j :: 0 <= i < j < |order| ==> order[i] != order[j]
    requires forall id :: id in ids ==> m[id].fileType in order
    ensures TypeCountSum(order, m, ids) == |ids|
    decreases ids
  {
    if ids == {} {
      TypeCountSumEmpty(order, m);
    } else {
      var x := Pick(ids);
      TypeCountSumRemove(order, m, ids, x);
      HitsOnce(order, m[x]);
      TypeCountSumAll(order, m, ids - {x});
      RemoveOne(ids, x);
    }
  }

  lemma {:induction false} SumCountsIsTypeCountSum(order: seq<string>, counts: map<string, nat>, m: map<string, RecycledInfo>)
    requires forall t :: t in order ==> t in counts && counts[t] == TypeCount(m, t)
    ensures SumCounts(order, counts) == TypeCountSum(order, m, m.Keys)
  {
    if order != [] {
      SumCountsIsTypeCountSum(order[1..], counts, m);
    }
  }

  /** The per-type counts add up to the number of entries. */
  lemma EveryEntryCountedOnce(table: TypeTable, m: map<string, RecycledInfo>, counts: map<string, nat>)
    requires table.Valid()
    requires forall id :: id in m ==> m[id].fileType in table.types
    requires counts.Keys == table.types.Keys
    requires forall t :: t in counts ==> counts[t] == TypeCount(m, t)
    ensures SumCounts(table.order, counts) == |m|
  {
    SumCountsIsTypeCountSum(table.order, counts, m);
    TypeCountSumAll(table.order, m, m.Keys);
  }

  /** What the statistics loop has added up so far. */
  datatype Tally = Tally(total: nat, bytes: nat, counts: map<string, nat>, sizes: map<string, nat>)

  /** The tally before any entry: zero for every type of the table. */
  function NoTally(types: map<string, TypeConfig>): (tally: Tally)
    ensures tally.counts.Keys == types.Keys && tally.sizes.Keys == types.Keys
  {
    Tally(0, 0, map t | t in types :: 0, map t | t in types :: 0)
  }

  /** One entry added to the tally. */
  function Add(tally: Tally, info: RecycledInfo): Tally
    requires info.fileType in tally.counts && info.fileType in tally.sizes
  {
    var t := info.fileType;
    Tally(tally.total + 1, tally.bytes + info.size,
          tally.counts[t := tally.counts[t] + 1], tally.sizes[t := tally.sizes[t] + info.size])
  }

  /** The statistics a finished tally gives, with the icon and display name of each type. */
  function StatsOf(types: map<string, TypeConfig>, tally: Tally): (stats: BinStats)
    requires tally.counts.Keys == types.Keys && tally.sizes.Keys == types.Keys
    ensures stats.totalFiles == tally.total && stats.totalBytes == tally.bytes
    ensures stats.byType.Keys == types.Keys && Counts(stats.byType) == tally.counts
    ensures forall t :: t in stats.byType ==>
      stats.byType[t] == TypeStats(tally.counts[t], tally.sizes[t], types[t].icon, types[t].displayName)
  {
    var byType := map t | t in types :: TypeStats(tally.counts[t], tally.sizes[t], types[t].icon, types[t].displayName);
    assert Counts(byType) == tally.counts;
    BinStats(tally.total, tally.bytes, byType)
  }

  /** The statistics loop's state after some entries have been tallied. */
  ghost predicate StatsLoop(table: TypeTable, entries: map<string, RecycledInfo>, unseen: set<string>, tally: Tally)
  {
    && unseen <= entries.Keys
    && tally.counts.Keys == table.types.Keys && tally.sizes.Keys == table.types.Keys
    && tally.total + |unseen| == |entries|
    && Tallied(entries, unseen, tally.bytes, tally.counts, tally.sizes)
  }

  lemma StatsLoopStart(table: TypeTable, entries: map<string, RecycledInfo>)
    ensures StatsLoop(table, entries, entries.Keys, NoTally(table.types))
  {
    var tally := NoTally(table.types);
    TalliedStart(entries, tally.counts, tally.sizes);
  }

  lemma StatsLoopStep(table: TypeTable, entries: map<string, RecycledInfo>, unseen: set<string>, tally: Tally, id: string)
    requires forall id :: id in entries ==> entries[id].fileType in table.types
    requires StatsLoop(table, entries, unseen, tally)
    requires id in unseen
    ensures entries[id].fileType in tally.counts && entries[id].fileType in tally.sizes
    ensures StatsLoop(table, entries, unseen - {id}, Add(tally, entries[id]))
  {
    var t := entries[id].fileType;
    var next := Add(tally, entries[id]);
    TalliedStep(entries, unseen, tally.bytes, tally.counts, tally.sizes, id, next.bytes, next.counts, next.sizes);
    UpdateKeepsKeys(tally.counts, t, tally.counts[t] + 1);
    UpdateKeepsKeys(tally.sizes, t, tally.sizes[t] + entries[id].size);
    RemoveOne(unseen, id);
  }

  /** A finished tally holds the sums over all entries. */
  lemma StatsLoopEnd(table: TypeTable, entries: map<string, RecycledInfo>, tally: Tally)
    requires table.Valid()
    requires forall id :: id in entries ==> entries[id].fileType in table.types
    requires StatsLoop(table, entries, {}, tally)
    ensures tally.total == |entries|
    ensures tally.bytes == Total(entries, entries.Keys, AllBytes)
    ensures forall t :: t in tally.counts ==> tally.counts[t] == TypeCount(entries, t)
    ensures forall t :: t in tally.sizes ==> tally.sizes[t] == Total(entries, entries.Keys, BytesOf(t))
    ensures SumCounts(table.order, tally.counts) == |entries|
  {
    TalliedEnd(entries, tally.bytes, tally.counts, tally.sizes);
    EveryEntryCountedOnce(table, entries, tally.counts);
  }

  /** The statistics of the given entries, one line per type of the table. */
  method Statistics(table: TypeTable, entries: map<string, RecycledInfo>) returns (stats: BinStats)
    requires table.Valid()
    requires forall id :: id in entries ==> entries[id].fileType in table.types
    ensures stats.totalFiles == |entries|
    ensures stats.totalBytes == Total(entries, entries.Keys, AllBytes)
    ensures stats.byType.Keys == table.types.Keys
    ensures forall t :: t in stats.byType ==>
      stats.byType[t] == TypeStats(TypeCount(entries, t), Total(entries, entries.Keys, BytesOf(t)),
                                   table.types[t].icon, table.types[t].displayName)
    ensures SumCounts(table.order, Counts(stats.byType)) == stats.totalFiles
  {
    var tally := NoTally(table.types);
    var unseen := entries.Keys;
    StatsLoopStart(table, entries);
    while unseen != {}
      invariant StatsLoop(table, entries, unseen, tally)
      decreases |unseen|
    {
      var id :| id in unseen;
      StatsLoopStep(table, entries, unseen, tally, id);
      tally, unseen := Add(tally, entries[id]), unseen - {id};
    }
    StatsLoopEnd(table, entries, tally);
    stats := StatsOf(table.types, tally);
  }

  /** The files behind the given entries. */
  ghost function RecycledPaths(metadata: map<string, RecycledInfo>, ids: set<string>): (paths: set<string>)
    requires ids <= metadata.Keys
    ensures forall id :: id in ids ==> metadata[id].recycledPath in paths
  {
    set id | id in ids :: metadata[id].recycledPath
  }

  lemma RemoveOne<T>(s: set<T>, x: T)
    requires x in s
    ensures |s - {x}| == |s| - 1
  {
  }

  lemma UpdateKeepsKeys<K, V>(m: map<K, V>, k: K, v: V)
    requires k in m
    ensures m[k := v].Keys == m.Keys
  {
  }

  lemma MapMinusStep<K, V>(m: map<K, V>, gone: set<K>, k: K)
    ensures (m - gone) - {k} == m - (gone + {k})
  {
  }

  lemma RecycledPathsAdd(metadata: map<string, RecycledInfo>, ids: set<string>, id: string)
    requires ids <= metadata.Keys && id in metadata
    ensures RecycledPaths(metadata, ids + {id}) == RecycledPaths(metadata, ids) + {metadata[id].recycledPath}
  {
  }

  lemma TypesKnownAfterInsert(table: TypeTable, m: map<string, RecycledInfo>, key: string, info: RecycledInfo,
                               m': map<string, RecycledInfo>)
    requires forall id :: id in m ==> m[id].fileType in table.types
    requires info.fileType in table.types
    requires m' == m[key := info]
    ensures forall id :: id in m' ==> m'[id].fileType in table.types
  {
  }



  lemma SameElements(a: seq<RecycledView>, b: seq<RecycledView>)
    requires multiset(a) == multiset(b)
    ensures forall v :: v in a <==> v in b
  {
    forall v ensures v in a <==> v in b {
      assert v in a <==> v in multiset(a);
      assert v in b <==> v in multiset(b);
    }
  }

  /** No id is listed twice. */
  predicate DistinctIds(s: seq<RecycledView>) {
    forall i, j :: 0 <= i < j < |s| ==> s[i].id != s[j].id
  }

  lemma DistinctIdsAppend(s: seq<RecycledView>, v: RecycledView)
    requires DistinctIds(s) && forall w :: w in s ==> w.id != v.id
    ensures DistinctIds(s + [v])
  {
    var t := s + [v];
    forall i, j | 0 <= i < j < |t| ensures t[i].id != t[j].id {
      assert t[i] == s[i];
      if j == |s| {
        assert s[i] in s;
      } else {
        assert t[j] == s[j];
      }
    }
  }

  lemma DistinctIdsKept(a: seq<RecycledView>, b: seq<RecycledView>)
    requires multiset(a) == multiset(b)
    requires DistinctIds(a)
    ensures DistinctIds(b)
  {
    forall i, j | 0 <= i < j < |b| ensures b[i].id != b[j].id {
      if b[i].id == b[j].id {
        assert b[i] in multiset(a) && b[j] in multiset(a);
        var x :| 0 <= x < |a| && a[x] == b[i];
        var y :| 0 <= y < |a| && a[y] == b[j];
        assert x == y;
        assert b[i] == b[j];
        assert multiset(b)[b[i]] >= 2 by {
          assert b == b[..i] + [b[i]] + b[i + 1..j] + [b[j]] + b[j + 1..];
        }
        SingleOccurrence(a, x);
      }
    }
  }

  lemma SingleOccurrence(a: seq<RecycledView>, x: int)
    requires 0 <= x < |a|
    requires forall i, j :: 0 <= i < j < |a| ==> a[i].id != a[j].id
    ensures multiset(a)[a[x]] == 1
  {
    assert a == a[..x] + [a[x]] + a[x + 1..];
    assert a[x] !in a[..x];
    assert a[x] !in a[x + 1..];
  }

  /** cleanup removes exactly the expired entries: running it twice at the
      same instant finds nothing the second time. */
  lemma CleanupIdempotent(table: TypeTable, metadata: map<string, RecycledInfo>, now: int)
    requires forall id :: id in metadata ==> metadata[id].fileType in table.types
    ensures ExpiredIds(table, metadata - ExpiredIds(table, metadata, now), now) == {}
  {
  }

  /** Once an entry is expired it stays expired as time passes. */
  lemma ExpiryIsMonotone(table: TypeTable, info: RecycledInfo, now: int, later: int)
    requires info.fileType in table.types && now <= later
    requires IsExpired(table, info, now)
    ensures IsExpired(table, info, later)
  {
  }

  /** resolve_restore_conflicts: the target if free, else
      "<name> (Restored n)<ext>" for the first free n from 1. */
  method ResolveRestoreConflicts(existing: set<string>, target: string) returns (path: string)
    ensures path !in existing
    ensures target !in existing ==> path == target
    ensures target in existing ==>
      exists n :: Naming.IsFirstFree(existing, Paths.Root(target) + " (Restored ", ")" + Paths.Ext(target), n)
               && path == Naming.Numbered(Paths.Root(target) + " (Restored ", n, ")" + Paths.Ext(target))
  {
    path := Naming.ResolveConflict(existing, target, Paths.Root(target) + " (Restored ", ")" + Paths.Ext(target));
  }
}
